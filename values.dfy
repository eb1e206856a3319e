/** The untyped Ruby values a decoder reads (what a JSON or YAML parser hands
    over), the parts of Ruby's object model the decoders consult — `class`,
    `is_a?`, `inspect`, `Kernel#String` — and the Hash operations they use:
    key lookup and `to_h` on a list of pairs. */
module Values {
  import opened Seqs

  datatype Option<T> = None | Some(value: T)

  /** A Ruby value. A Float is an opaque token holding its printed form; a Hash
      keeps its pairs in insertion order. */
  datatype Value =
    | Nil
    | True
    | False
    | Int(i: int)
    | Flt(token: string)
    | Str(s: string)
    | Sym(name: string)
    | Arr(items: seq<Value>)
    | Hsh(pairs: seq<(Value, Value)>)

  /** The classes a decoder can name: the concrete class of each kind of value,
      plus the superclasses `Numeric` and `Object`. */
  datatype RubyClass =
    | NilClass | TrueClass | FalseClass | IntegerClass | FloatClass
    | StringClass | SymbolClass | ArrayClass | HashClass
    | NumericClass | ObjectClass

  /** `value.class` */
  function ClassOf(v: Value): (c: RubyClass)
    ensures c != NumericClass && c != ObjectClass
  {
    match v
    case Nil => NilClass
    case True => TrueClass
    case False => FalseClass
    case Int(_) => IntegerClass
    case Flt(_) => FloatClass
    case Str(_) => StringClass
    case Sym(_) => SymbolClass
    case Arr(_) => ArrayClass
    case Hsh(_) => HashClass
  }

  /** `Class#to_s` */
  function ClassName(c: RubyClass): string
  {
    match c
    case NilClass => "NilClass"
    case TrueClass => "TrueClass"
    case FalseClass => "FalseClass"
    case IntegerClass => "Integer"
    case FloatClass => "Float"
    case StringClass => "String"
    case SymbolClass => "Symbol"
    case ArrayClass => "Array"
    case HashClass => "Hash"
    case NumericClass => "Numeric"
    case ObjectClass => "Object"
  }

  /** `value.is_a?(c)`, which is also `c === value` for a class `c`. */
  predicate IsA(v: Value, c: RubyClass)
  {
    c == ClassOf(v) || (c == NumericClass && (v.Int? || v.Flt?)) || c == ObjectClass
  }

  lemma IsAOwnClass(v: Value, c: RubyClass)
    requires c != NumericClass && c != ObjectClass
    ensures IsA(v, c) <==> ClassOf(v) == c
  {
  }

  /** `value.inspect`, in the layout of Ruby 3.3 (string escapes and float
      formatting are not modelled). */
  function Inspect(v: Value): string
  {
    match v
    case Nil => "nil"
    case True => "true"
    case False => "false"
    case Int(i) => Decimal(i)
    case Flt(t) => t
    case Str(s) => "\"" + s + "\""
    case Sym(n) => ":" + n
    case Arr(xs) =>
      "[" + Join(seq(|xs|, k requires 0 <= k < |xs| => Inspect(xs[k])), ", ") + "]"
    case Hsh(ps) =>
      "{" + Join(seq(|ps|, k requires 0 <= k < |ps| => InspectPair(ps[k], v)), ", ") + "}"
  }

  function InspectPair(p: (Value, Value), ghost h: Value): string
    requires h.Hsh? && p in h.pairs
    decreases h, 0
  {
    Inspect(p.0) + "=>" + Inspect(p.1)
  }

  /** `Kernel#String(value)`: the string itself, a symbol's name, "" for nil and
      `to_s` otherwise, which for Integers, Floats, `true`, `false`, Arrays and
      Hashes writes the same text as `inspect`. */
  function ToStr(v: Value): (s: string)
    ensures v.Str? ==> s == v.s
    ensures v.Sym? ==> s == v.name
    ensures v.Nil? ==> s == ""
    ensures !(v.Str? || v.Sym? || v.Nil?) ==> s == Inspect(v)
  {
    match v
    case Str(s) => s
    case Sym(n) => n
    case Nil => ""
    case Flt(t) => t
    case _ => Inspect(v)
  }

  /** Whether no key occurs twice, as in every Ruby Hash. */
  ghost predicate UniqueKeys(ps: seq<(Value, Value)>)
  {
    forall i, j :: 0 <= i < j < |ps| ==> ps[i].0 != ps[j].0
  }

  /** `hash.key?(k)` / `hash.fetch(k)`: the value stored under `k`, found by
      the first pair whose key is `k`. */
  function Lookup(ps: seq<(Value, Value)>, k: Value): Option<Value>
  {
    if ps == [] then None
    else if ps[0].0 == k then Some(ps[0].1)
    else Lookup(ps[1..], k)
  }

  lemma {:induction false} LookupAbsent(ps: seq<(Value, Value)>, k: Value)
    ensures Lookup(ps, k).None? <==> forall i :: 0 <= i < |ps| ==> ps[i].0 != k
  {
    if ps != [] {
      LookupAbsent(ps[1..], k);
      assert forall i :: 1 <= i < |ps| ==> ps[i] == ps[1..][i - 1];
    }
  }

  lemma {:induction false} LookupFound(ps: seq<(Value, Value)>, k: Value)
    requires Lookup(ps, k).Some?
    ensures exists i :: 0 <= i < |ps| && ps[i] == (k, Lookup(ps, k).value) &&
                        forall j :: 0 <= j < i ==> ps[j].0 != k
  {
    if ps[0].0 != k {
      LookupFound(ps[1..], k);
      var i :| 0 <= i < |ps[1..]| && ps[1..][i] == (k, Lookup(ps[1..], k).value) &&
               forall j :: 0 <= j < i ==> ps[1..][j].0 != k;
      assert ps[i + 1] == ps[1..][i];
      assert forall j :: 1 <= j < i + 1 ==> ps[j] == ps[1..][j - 1];
    } else {
      assert ps[0] == (k, Lookup(ps, k).value);
    }
  }

  /** `hash[k] = w`: an existing key keeps its position and takes the new value;
      a new key goes at the end. */
  function Store(ps: seq<(Value, Value)>, k: Value, w: Value): (r: seq<(Value, Value)>)
    ensures Lookup(r, k) == Some(w)
    ensures forall k' :: k' != k ==> Lookup(r, k') == Lookup(ps, k')
    ensures Lookup(ps, k).None? ==> r == ps + [(k, w)]
    ensures Lookup(ps, k).Some? ==> |r| == |ps|
  {
    if ps == [] then [(k, w)]
    else if ps[0].0 == k then [(k, w)] + ps[1..]
    else
      var r := [ps[0]] + Store(ps[1..], k, w);
      assert forall k' :: Lookup(r, k') == if ps[0].0 == k' then Some(ps[0].1) else Lookup(r[1..], k');
      assert r[1..] == Store(ps[1..], k, w);
      r
  }

  /** `hash[k] = w` keeps every existing key in its place. */
  lemma {:induction false} StoreKeepsKeys(ps: seq<(Value, Value)>, k: Value, w: Value)
    ensures |Store(ps, k, w)| >= |ps|
    ensures forall i :: 0 <= i < |ps| ==> Store(ps, k, w)[i].0 == ps[i].0
  {
    if ps != [] && ps[0].0 != k {
      StoreKeepsKeys(ps[1..], k, w);
      var r := Store(ps, k, w);
      assert r == [ps[0]] + Store(ps[1..], k, w);
      forall i | 0 <= i < |ps| ensures r[i].0 == ps[i].0 {
        if i > 0 { assert r[i] == Store(ps[1..], k, w)[i - 1] && ps[i] == ps[1..][i - 1]; }
      }
    }
  }

  lemma StoreUnique(ps: seq<(Value, Value)>, k: Value, w: Value)
    requires UniqueKeys(ps)
    ensures UniqueKeys(Store(ps, k, w))
  {
    var r := Store(ps, k, w);
    StoreKeepsKeys(ps, k, w);
    if Lookup(ps, k).None? {
      LookupAbsent(ps, k);
      assert r == ps + [(k, w)];
      forall i, j | 0 <= i < j < |r| ensures r[i].0 != r[j].0 {
        if j == |ps| { assert r[j].0 == k && r[i] == ps[i]; }
        else { assert r[i] == ps[i] && r[j] == ps[j]; }
      }
    } else {
      assert |r| == |ps|;
    }
  }

  /** The value a list of pairs gives `k` once later pairs override earlier
      ones: none when no pair has `k`, else the value of the last pair with `k`. */
  ghost function LastValue(ps: seq<(Value, Value)>, k: Value): (r: Option<Value>)
    ensures r.None? <==> forall i :: 0 <= i < |ps| ==> ps[i].0 != k
    ensures r.Some? ==> exists i :: 0 <= i < |ps| && ps[i] == (k, r.value) &&
                                    forall j :: i < j < |ps| ==> ps[j].0 != k
  {
    if ps == [] then None
    else
      var later := LastValue(ps[1..], k);
      assert forall i :: 1 <= i < |ps| ==> ps[i] == ps[1..][i - 1];
      if later.Some? then
        var i :| 0 <= i < |ps[1..]| && ps[1..][i] == (k, later.value) &&
                 forall j :: i < j < |ps[1..]| ==> ps[1..][j].0 != k;
        assert ps[i + 1] == (k, later.value);
        later
      else if ps[0].0 == k then Some(ps[0].1) else None
  }

  /** `pairs.reduce(acc) { |h, (k, w)| h[k] = w; h }` */
  function StoreAll(acc: seq<(Value, Value)>, ps: seq<(Value, Value)>): (r: seq<(Value, Value)>)
    requires UniqueKeys(acc)
    ensures UniqueKeys(r)
    decreases ps
  {
    StoreUnique(acc, if ps == [] then Nil else ps[0].0, if ps == [] then Nil else ps[0].1);
    if ps == [] then acc else StoreAll(Store(acc, ps[0].0, ps[0].1), ps[1..])
  }

  /** `pairs.to_h` */
  function ToH(ps: seq<(Value, Value)>): (h: Value)
    ensures h.Hsh? && UniqueKeys(h.pairs)
  {
    Hsh(StoreAll([], ps))
  }

  lemma {:induction false} StoreAllLookup(acc: seq<(Value, Value)>, ps: seq<(Value, Value)>, k: Value)
    requires UniqueKeys(acc)
    ensures Lookup(StoreAll(acc, ps), k) == if LastValue(ps, k).Some? then LastValue(ps, k) else Lookup(acc, k)
    decreases ps
  {
    if ps != [] {
      StoreUnique(acc, ps[0].0, ps[0].1);
      StoreAllLookup(Store(acc, ps[0].0, ps[0].1), ps[1..], k);
    }
  }

  /** In `to_h` a later pair wins over an earlier pair with the same key. */
  lemma ToHLaterWins(ps: seq<(Value, Value)>, k: Value)
    ensures Lookup(ToH(ps).pairs, k) == LastValue(ps, k)
  {
    StoreAllLookup([], ps, k);
  }

  lemma {:induction false} StoreAllFresh(acc: seq<(Value, Value)>, ps: seq<(Value, Value)>)
    requires UniqueKeys(acc + ps)
    ensures UniqueKeys(acc) && StoreAll(acc, ps) == acc + ps
    decreases ps
  {
    assert forall i :: 0 <= i < |acc| ==> acc[i] == (acc + ps)[i];
    if ps != [] {
      var k := ps[0].0;
      forall i | 0 <= i < |acc| ensures acc[i].0 != k {
        assert acc[i] == (acc + ps)[i] && ps[0] == (acc + ps)[|acc|];
      }
      LookupAbsent(acc, k);
      assert acc + ps == (acc + [ps[0]]) + ps[1..];
      StoreAllFresh(acc + [ps[0]], ps[1..]);
    }
  }

  /** Pairs whose keys are already distinct come out of `to_h` unchanged, in order. */
  lemma ToHUnique(ps: seq<(Value, Value)>)
    requires UniqueKeys(ps)
    ensures ToH(ps) == Hsh(ps)
  {
    assert [] + ps == ps;
    StoreAllFresh([], ps);
  }
}
