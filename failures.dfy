/** A Failure is an error message plus the stack of path segments (hash keys
    and array indices) pushed onto it while the error travelled outwards from
    the value that did not decode. */
module Failures {
  import opened Seqs

  /** A path segment: a Field key (a String) or an Array index (an Integer). */
  datatype Segment = Key(name: string) | Pos(index: int)

  /** The segment as `join` writes it (`to_s`). */
  function SegmentText(s: Segment): string
  {
    match s
    case Key(n) => n
    case Pos(i) => Decimal(i)
  }

  function Texts(path: seq<Segment>): (ts: seq<string>)
    ensures |ts| == |path|
    ensures forall i :: 0 <= i < |path| ==> ts[i] == SegmentText(path[i])
  {
    seq(|path|, i requires 0 <= i < |path| => SegmentText(path[i]))
  }

  /** Two Failures are equal exactly when message and whole path are. */
  datatype Failure = Failure(msg: string, path: seq<Segment>) {

    /** `push(segment)`: a new Failure, one segment longer; the receiver is a
        value and is not changed. */
    function Push(segment: Segment): (f: Failure)
      ensures f.msg == msg
      ensures |f.path| == |path| + 1 && f.path[..|path|] == path && f.path[|path|] == segment
    {
      Failure(msg, path + [segment])
    }

    /** `to_s`: the bare message for an empty path, otherwise the segments
        from the last pushed to the first, after "Error at .". */
    function ToS(): (s: string)
      ensures path == [] ==> s == msg
    {
      if |path| > 0 then "Error at ." + Join(Texts(Reverse(path)), ".") + ": " + msg
      else msg
    }
  }

  /** `failure(msg)` / `Failure.new(msg)`: a Failure with an empty path. */
  function New(msg: string): (f: Failure)
    ensures f.msg == msg && f.path == []
  {
    Failure(msg, [])
  }

  /** Equal Failures have equal messages and equal paths, and conversely. */
  lemma EqualityIsStructural(f: Failure, g: Failure)
    ensures f == g <==> f.msg == g.msg && f.path == g.path
  {
  }

  /** With a non-empty path, `to_s` is "Error at .", then the segments from the
      last pushed to the first joined by ".", then ": " and the message whole. */
  lemma ToSShape(f: Failure)
    requires f.path != []
    ensures var s := f.ToS(); var j := Join(Texts(Reverse(f.path)), ".");
      |s| == 10 + |j| + 2 + |f.msg| &&
      s[..10] == "Error at ." && s[10..10 + |j|] == j && s[10 + |j|..] == ": " + f.msg
  {
    var j := Join(Texts(Reverse(f.path)), ".");
    assert f.ToS() == "Error at ." + j + (": " + f.msg);
    Concat3("Error at .", j, ": " + f.msg);
  }

  lemma {:induction false} TextsAppend(p: seq<Segment>, q: seq<Segment>)
    ensures Texts(p + q) == Texts(p) + Texts(q)
  {
    var l, r := Texts(p + q), Texts(p) + Texts(q);
    forall i | 0 <= i < |l| ensures l[i] == r[i] {
      if i < |p| { assert (p + q)[i] == p[i]; } else { assert (p + q)[i] == q[i - |p|]; }
    }
  }

  /** After `push(s)` the rendering starts with `s`, followed by what the old
      path rendered: the most recently pushed segment is the outermost. */
  lemma PushRendersFirst(f: Failure, s: Segment)
    ensures f.Push(s).ToS() ==
      "Error at ." + SegmentText(s) +
      (if f.path == [] then "" else "." + Join(Texts(Reverse(f.path)), ".")) +
      ": " + f.msg
  {
    ReverseSnoc(f.path, s);
    TextsAppend([s], Reverse(f.path));
    JoinCons(SegmentText(s), Texts(Reverse(f.path)), ".");
  }

  /** The example of the failure tests: pushing "0" and then "foo". */
  lemma PushTwiceExample()
    ensures New("expected string").Push(Key("0")).Push(Key("foo")).ToS() == "Error at .foo.0: expected string"
  {
    var f := New("expected string").Push(Key("0"));
    PushRendersFirst(f, Key("foo"));
    assert f.path == [Key("0")];
    assert Reverse(f.path) == [Key("0")];
    assert Texts([Key("0")]) == ["0"];
  }
}
