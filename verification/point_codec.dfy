/** The `"x;y"` text form of a point: `CGPoint.string()` and
    `CGPoint(string:)`, on top of Swift's `split(separator:)` with its default
    of dropping empty pieces. */
module PointCodec {
  import opened Wrappers
  import opened Values

  const Separator: char := ';'

  /** A piece as `split` can produce it: non-empty, without a separator. */
  predicate IsPiece(p: string) {
    p != [] && Separator !in p
  }

  predicate AllPieces(ps: seq<string>) {
    forall i :: 0 <= i < |ps| ==> IsPiece(ps[i])
  }

  /** Index of the first separator in `s`, or `|s|` when there is none. */
  function FirstSeparator(s: string): (k: nat)
    ensures k <= |s|
    ensures Separator !in s[..k]
    ensures k < |s| ==> s[k] == Separator
  {
    if s == [] || s[0] == Separator then 0
    else
      var k := 1 + FirstSeparator(s[1..]);
      assert s[..k] == [s[0]] + s[1..][..k - 1];
      k
  }

  /** `s.split(separator: ";")`: the maximal separator-free runs of `s`, in
      order, with empty runs omitted. */
  function Split(s: string): (pieces: seq<string>)
    ensures AllPieces(pieces)
    decreases |s|
  {
    if s == [] then []
    else if s[0] == Separator then Split(s[1..])
    else
      var k := FirstSeparator(s);
      [s[..k]] + Split(s[k..])
  }

  /** The pieces joined with one separator between neighbours. */
  function Join(ps: seq<string>): string {
    if ps == [] then []
    else if |ps| == 1 then ps[0]
    else ps[0] + [Separator] + Join(ps[1..])
  }

  /** `s` with every separator removed. */
  function Strip(s: string): (r: string)
    ensures Separator !in r
  {
    if s == [] then []
    else if s[0] == Separator then Strip(s[1..])
    else [s[0]] + Strip(s[1..])
  }

  function Concat(ps: seq<string>): string {
    if ps == [] then [] else ps[0] + Concat(ps[1..])
  }

  /** `CGPoint.string()`: when neither coordinate's text holds a separator
      (and neither is empty), splitting the result gives the two texts back. */
  function Render(p: Point, fmt: NumberFormat): (r: string)
    ensures RendersAsPiece(fmt, p.x) && RendersAsPiece(fmt, p.y) ==>
      Split(r) == [fmt.render(p.x), fmt.render(p.y)]
  {
    var r := fmt.render(p.x) + [Separator] + fmt.render(p.y);
    if RendersAsPiece(fmt, p.x) && RendersAsPiece(fmt, p.y) then
      SplitPair(fmt.render(p.x), fmt.render(p.y));
      r
    else
      r
  }

  /** `CGPoint(string:)`: no point for a missing string or fewer than two
      pieces; otherwise the first two pieces read as numbers, the rest ignored.
      `floatValue` never fails, so piece contents are never rejected. */
  function Parse(s: Option<string>, fmt: NumberFormat): (r: Option<Point>)
    ensures r.Some? <==> s.Some? && |Split(s.value)| >= 2
    ensures r.Some? ==> r.value.x == fmt.floatValue(Split(s.value)[0])
    ensures r.Some? ==> r.value.y == fmt.floatValue(Split(s.value)[1])
  {
    match s
    case None => None
    case Some(text) =>
      var coords := Split(text);
      if |coords| > 1 then Some(Point(fmt.floatValue(coords[0]), fmt.floatValue(coords[1])))
      else None
  }

  /** A number whose rendering is a single piece. */
  predicate RendersAsPiece(fmt: NumberFormat, n: Number) {
    IsPiece(fmt.render(n))
  }

  // ---------------------------------------------------------------------------
  // Lemmas about Split

  lemma {:induction false} FirstSeparatorAfterPiece(p: string, rest: string)
    requires Separator !in p
    requires rest == [] || rest[0] == Separator
    ensures FirstSeparator(p + rest) == |p|
    decreases |p|
  {
    if p != [] {
      assert (p + rest)[0] == p[0];
      assert (p + rest)[1..] == p[1..] + rest;
      FirstSeparatorAfterPiece(p[1..], rest);
    } else {
      assert p + rest == rest;
    }
  }

  /** A piece followed by a separator-led (or empty) rest splits off as the
      first piece. */
  lemma {:induction false} SplitPiece(p: string, rest: string)
    requires IsPiece(p)
    requires rest == [] || rest[0] == Separator
    ensures Split(p + rest) == [p] + Split(rest)
  {
    var s := p + rest;
    assert s[0] == p[0];
    FirstSeparatorAfterPiece(p, rest);
    assert s[..|p|] == p;
    assert s[|p|..] == rest;
  }

  /** A leading separator contributes nothing. */
  lemma SplitSkipsSeparator(rest: string)
    ensures Split([Separator] + rest) == Split(rest)
  {
    assert ([Separator] + rest)[1..] == rest;
  }

  /** Round trip: splitting the joined pieces gives the pieces back. */
  lemma {:induction false} SplitJoin(ps: seq<string>)
    requires AllPieces(ps)
    ensures Split(Join(ps)) == ps
    decreases |ps|
  {
    if ps == [] {
    } else if |ps| == 1 {
      SplitPiece(ps[0], []);
      assert ps[0] + [] == ps[0];
    } else {
      var tail := [Separator] + Join(ps[1..]);
      assert Join(ps) == ps[0] + tail;
      SplitPiece(ps[0], tail);
      SplitSkipsSeparator(Join(ps[1..]));
      SplitJoin(ps[1..]);
      assert ps == [ps[0]] + ps[1..];
    }
  }

  /** The pieces that are not empty, in order. */
  function NonEmpty(ps: seq<string>): (r: seq<string>)
    ensures |r| <= |ps|
  {
    if ps == [] then []
    else (if ps[0] == [] then [] else [ps[0]]) + NonEmpty(ps[1..])
  }

  /** Every maximal separator-free run of `s`, empty ones included: the
      fields between consecutive separators. */
  function Runs(s: string): (rs: seq<string>)
    ensures rs != []
    ensures forall i :: 0 <= i < |rs| ==> Separator !in rs[i]
    decreases |s|
  {
    var k := FirstSeparator(s);
    if k == |s| then [s] else [s[..k]] + Runs(s[k + 1..])
  }

  /** Round trip for any separator-free fields, empty ones included: the
      split drops exactly the empty fields and keeps the rest in order. */
  lemma {:induction false} SplitJoinAny(ps: seq<string>)
    requires forall i :: 0 <= i < |ps| ==> Separator !in ps[i]
    ensures Split(Join(ps)) == NonEmpty(ps)
    decreases |ps|
  {
    if ps == [] {
    } else if |ps| == 1 {
      assert NonEmpty(ps[1..]) == [];
      if ps[0] != [] {
        SplitPiece(ps[0], []);
        assert ps[0] + [] == ps[0];
      }
    } else {
      var tail := [Separator] + Join(ps[1..]);
      assert Join(ps) == ps[0] + tail;
      SplitSkipsSeparator(Join(ps[1..]));
      SplitJoinAny(ps[1..]);
      if ps[0] == [] {
        assert Join(ps) == tail;
      } else {
        SplitPiece(ps[0], tail);
      }
    }
  }

  /** The fields of `s` joined with separators give `s` back. */
  lemma {:induction false} JoinRuns(s: string)
    ensures Join(Runs(s)) == s
    decreases |s|
  {
    var k := FirstSeparator(s);
    if k < |s| {
      JoinRuns(s[k + 1..]);
      assert Runs(s) == [s[..k]] + Runs(s[k + 1..]);
      assert Join(Runs(s)) == s[..k] + [Separator] + s[k + 1..];
      assert s == s[..k] + [s[k]] + s[k + 1..];
    }
  }

  /** `split` in full: the pieces of `s` are its fields with the empty ones
      dropped, in order. */
  lemma SplitDropsEmptyFields(s: string)
    ensures Split(s) == NonEmpty(Runs(s))
  {
    JoinRuns(s);
    SplitJoinAny(Runs(s));
  }

  lemma {:induction false} StripAppend(a: string, b: string)
    ensures Strip(a + b) == Strip(a) + Strip(b)
    decreases |a|
  {
    if a == [] {
      assert a + b == b;
    } else {
      assert (a + b)[0] == a[0];
      assert (a + b)[1..] == a[1..] + b;
      StripAppend(a[1..], b);
    }
  }

  lemma {:induction false} StripPlain(a: string)
    requires Separator !in a
    ensures Strip(a) == a
    decreases |a|
  {
    if a != [] {
      assert a[0] in a;
      assert forall c :: c in a[1..] ==> c in a;
      StripPlain(a[1..]);
      assert a == [a[0]] + a[1..];
    }
  }

  lemma ConcatCons(p: string, ps: seq<string>)
    ensures Concat([p] + ps) == p + Concat(ps)
  {
    assert ([p] + ps)[1..] == ps;
  }

  /** Splitting loses nothing but separators: the pieces, concatenated, are
      the input with its separators removed. */
  lemma {:induction false} SplitKeepsContent(s: string)
    ensures Concat(Split(s)) == Strip(s)
    decreases |s|
  {
    if s == [] {
    } else if s[0] == Separator {
      SplitKeepsContent(s[1..]);
    } else {
      var k := FirstSeparator(s);
      var head, rest := s[..k], s[k..];
      assert Split(s) == [head] + Split(rest);
      ConcatCons(head, Split(rest));
      SplitKeepsContent(rest);
      assert s == head + rest;
      StripAppend(head, rest);
      StripPlain(head);
    }
  }

  // ---------------------------------------------------------------------------
  // Lemmas about the point codec

  /** What `string()` writes, `CGPoint(string:)` accepts, with the pieces being
      exactly the two rendered coordinates. */
  lemma RenderParses(p: Point, fmt: NumberFormat)
    requires RendersAsPiece(fmt, p.x) && RendersAsPiece(fmt, p.y)
    ensures Split(Render(p, fmt)) == [fmt.render(p.x), fmt.render(p.y)]
    ensures Parse(Some(Render(p, fmt)), fmt)
         == Some(Point(fmt.floatValue(fmt.render(p.x)), fmt.floatValue(fmt.render(p.y))))
  {
  }

  /** Two pieces joined by one separator split back into those two pieces. */
  lemma SplitPair(a: string, b: string)
    requires IsPiece(a) && IsPiece(b)
    ensures Split(a + [Separator] + b) == [a, b]
  {
    var ps := [a, b];
    assert Join(ps) == a + [Separator] + b by {
      assert ps[1..] == [b];
    }
    SplitJoin(ps);
  }

  /** When reading a rendered coordinate gives the coordinate back, the codec
      round-trips points exactly. */
  lemma RenderParseIdentity(p: Point, fmt: NumberFormat)
    requires RendersAsPiece(fmt, p.x) && RendersAsPiece(fmt, p.y)
    requires fmt.floatValue(fmt.render(p.x)) == p.x
    requires fmt.floatValue(fmt.render(p.y)) == p.y
    ensures Parse(Some(Render(p, fmt)), fmt) == Some(p)
  {
    RenderParses(p, fmt);
  }

  /** Pieces after the second are ignored. */
  lemma ParseIgnoresExtraPieces(a: string, b: string, more: seq<string>, fmt: NumberFormat)
    requires AllPieces([a, b] + more)
    ensures Parse(Some(Join([a, b] + more)), fmt) == Parse(Some(Join([a, b])), fmt)
    ensures Parse(Some(Join([a, b] + more)), fmt) == Some(Point(fmt.floatValue(a), fmt.floatValue(b)))
  {
    SplitJoin([a, b] + more);
    SplitJoin([a, b]);
  }

  /** A separator with an empty side yields one piece and is rejected; an
      empty piece between two separators is dropped and still accepted. */
  lemma ParseExamples(fmt: NumberFormat)
    ensures Parse(Some("5;"), fmt) == None
    ensures Parse(Some(";5"), fmt) == None
    ensures Parse(Some("1;;2"), fmt) == Some(Point(fmt.floatValue("1"), fmt.floatValue("2")))
    ensures Parse(None, fmt) == None
  {
    SplitPiece("5", ";");
    assert "5;" == "5" + ";";
    assert Split(";") == [] by { SplitSkipsSeparator([]); }
    SplitSkipsSeparator("5");
    assert ";5" == [Separator] + "5";
    SplitPiece("5", []);
    assert "5" + [] == "5";
    assert "1;;2" == "1" + ";;2";
    SplitPiece("1", ";;2");
    assert ";;2" == [Separator] + ";2";
    SplitSkipsSeparator(";2");
    assert ";2" == [Separator] + "2";
    SplitSkipsSeparator("2");
    SplitPiece("2", []);
    assert "2" + [] == "2";
  }
}
