/** `Match`: the leaf decoder. It accepts the input unchanged when the pattern
    `===` it, and otherwise fails with a message that depends on whether the
    pattern is a class. */
module Match {
  import opened Values
  import opened Results
  import opened Failures
  import opened DecoderCore

  /** A pattern: a class, a plain value (a String, say), or a regular
      expression given by its source text and the strings it accepts. */
  datatype Pattern =
    | ClassPattern(cls: RubyClass)
    | ValuePattern(expected: Value)
    | RegexpPattern(source: string, accepts: string -> bool)

  /** `pattern === value`: `is_a?` for a class, equality for a plain value, and
      for a regular expression a String or Symbol whose text it accepts. */
  predicate CaseEq(p: Pattern, v: Value)
  {
    match p
    case ClassPattern(c) => IsA(v, c)
    case ValuePattern(x) => x == v
    case RegexpPattern(_, accepts) =>
      (v.Str? && accepts(v.s)) || (v.Sym? && accepts(v.name))
  }

  /** `pattern.inspect` for a pattern that is not a class. */
  function PatternInspect(p: Pattern): string
    requires !p.ClassPattern?
  {
    match p
    case ValuePattern(x) => Inspect(x)
    case RegexpPattern(src, _) => "/" + src + "/"
  }

  /** `Match#call`: `Ok(v)` exactly when the pattern matches; otherwise an
      `Err` with a Failure whose path is empty and whose message names the
      class expected and the class found, or the pattern and the value. */
  function Call(p: Pattern, v: Value): (o: Decoded)
    ensures o.Returns?
    ensures Succeeds(o) <==> CaseEq(p, v)
    ensures Succeeds(o) ==> o.value.value == v
    ensures Rejects(o) ==> ErrorOf(o).Fail? && ErrorOf(o).failure.path == []
    ensures Rejects(o) && p.ClassPattern? ==>
      ErrorOf(o).failure.msg == "expected " + ClassName(p.cls) + ", got " + ClassName(ClassOf(v))
    ensures Rejects(o) && !p.ClassPattern? ==>
      ErrorOf(o).failure.msg == "expected value matching " + PatternInspect(p) + ", got: " + Inspect(v)
  {
    if CaseEq(p, v) then Returns(Ok(v))
    else if p.ClassPattern? then FailWith("expected " + ClassName(p.cls) + ", got " + ClassName(ClassOf(v)))
    else FailWith("expected value matching " + PatternInspect(p) + ", got: " + Inspect(v))
  }

  /** `Match.new(pattern)` */
  function New(p: Pattern): (r: Decoder)
    ensures forall v :: r(v) == Call(p, v)
  {
    v => Call(p, v)
  }

  /** `Numeric` accepts both kinds of number and nothing else. */
  lemma NumericAcceptsNumbers(v: Value)
    ensures Succeeds(Call(ClassPattern(NumericClass), v)) <==> v.Int? || v.Flt?
  {
  }

  /** A String pattern matches by equality. */
  lemma StringPatternIsEquality(s: string, v: Value)
    ensures Succeeds(Call(ValuePattern(Str(s)), v)) <==> v == Str(s)
  {
  }
}
