/** A chunk boundary inside a CRLF changes what the parser yields: two events become one. */
module SseWitness {
  import opened Wrappers
  import opened Text
  import opened SseStream

  /** Event data without white space or brackets. */
  predicate Plain(x: string) { x != "" && forall c | c in x :: !IsSpace(c) && c != '[' }

  function Line(x: string): string { DATA + x }

  /** The frame a data text parses to, if any. */
  function One<T>(parse: string -> Option<T>, data: string): seq<T> {
    match parse(data)
    case None => []
    case Some(frame) => [frame]
  }

  lemma LineIsPlain(x: string)
    requires Plain(x)
    ensures Line(x) != "" && Plain(Line(x)) && '\r' !in Line(x) && '\n' !in Line(x)
  {
    assert forall c | c in DATA :: c in ['d', 'a', 't', ':'];
    assert forall c | c in Line(x) :: c in DATA || c in x;
  }

  // ---- The newlines of the two readings --------------------------------------------------

  lemma {:induction false} UnixSkips(p: string, t: string)
    requires '\r' !in p
    ensures Unix(p + t) == p + Unix(t)
  {
    hide Unix;
    if p == "" {
      assert p + t == t;
    } else {
      UnixOther(p[0], p[1..] + t);
      UnixSkips(p[1..], t);
      assert p + t == [p[0]] + (p[1..] + t) && p == [p[0]] + p[1..];
    }
  }

  lemma WholeText(x: string, y: string)
    requires Plain(x) && Plain(y)
    ensures Unix(Line(x) + ("\r\n" + ("\r\n" + Line(y)))) == Line(x) + ("\n" + ("\n" + Line(y)))
  {
    LineIsPlain(x);
    LineIsPlain(y);
    UnixSkips(Line(x), "\r\n" + ("\r\n" + Line(y)));
    UnixCrlf("\r\n" + Line(y));
    UnixCrlf(Line(y));
    UnixSkips(Line(y), "");
    UnixEmpty();
    assert Line(y) + "" == Line(y);
  }

  lemma TextOfCut(x: string, y: string)
    requires Plain(x) && Plain(y)
    ensures Unix(Line(x) + ("\r\n" + "\r")) + Unix("\n" + Line(y)) == Line(x) + ("\n" + ("\r" + ("\n" + Line(y))))
  {
    LineIsPlain(x);
    LineIsPlain(y);
    UnixSkips(Line(x), "\r\n" + "\r");
    UnixCrlf("\r");
    UnixOther('\r', "");
    UnixEmpty();
    UnixSkips("\n" + Line(y), "");
    assert ("\n" + Line(y)) + "" == "\n" + Line(y);
    hide *;
    Regroup(Line(x), "\n", "\r", "\n" + Line(y));
  }

  lemma Regroup(a: string, b: string, c: string, d: string)
    ensures a + (b + (c + "")) + d == a + (b + (c + d))
  {
    assert c + "" == c;
  }

  // ---- Cutting and emitting ----------------------------------------------------------------

  lemma NoBlank(s: string)
    requires forall k | 0 <= k < |s| - 1 :: !(s[k] == '\n' && s[k + 1] == '\n')
    ensures FirstBlank(s) < 0
  {}

  lemma PlainHasNoBlank(p: string)
    requires Plain(p)
    ensures FirstBlank(p) < 0
  {
    assert IsSpace('\n');
    NoBlank(p);
  }

  lemma TwoPieces(p: string, q: string)
    requires Plain(p) && Plain(q)
    ensures SplitBlank(p + ("\n" + ("\n" + q))) == [p, q]
  {
    assert IsSpace('\n');
    PlainHasNoBlank(q);
    var closed, text := p + "\n\n", p + ("\n" + ("\n" + q));
    assert forall k | 0 <= k < |p| :: closed[k] == p[k];
    FirstBlankIs(closed, |p|);
    var pieces := [p, q];
    assert pieces[1..] == [q] && Join(pieces, "\n\n") == text by {
      assert Join([q], "\n\n") == q;
      assert p + "\n\n" + q == text;
    }
    hide FirstBlank, SplitBlank, Join;
    BlankSplitIsUnique(pieces, text);
  }

  lemma OnePiece(p: string, q: string)
    requires Plain(p) && Plain(q)
    ensures SplitBlank(p + ("\n" + ("\r" + ("\n" + q)))) == [p + ("\n" + ("\r" + ("\n" + q)))]
  {
    assert IsSpace('\n');
    var text := p + ("\n" + ("\r" + ("\n" + q)));
    forall k | 0 <= k < |text| - 1 ensures !(text[k] == '\n' && text[k + 1] == '\n') {
      assert k < |p| ==> text[k] == p[k];
      assert k >= |p| + 3 ==> text[k] == q[k - |p| - 3];
    }
    NoBlank(text);
  }

  lemma {:induction false} LineThenMore(p: string, rest: string)
    requires '\n' !in p
    ensures SplitLines(p) == [p]
    ensures SplitLines(p + ("\n" + rest)) == [p] + SplitLines(rest)
  {
    if p == "" {
      assert p + ("\n" + rest) == "\n" + rest && ("\n" + rest)[1..] == rest;
    } else {
      LineThenMore(p[1..], rest);
      assert (p + ("\n" + rest))[1..] == p[1..] + ("\n" + rest);
      assert p == [p[0]] + p[1..];
    }
  }

  lemma PlainIsTrimmed(s: string)
    requires s != "" && !IsSpace(s[0]) && !IsSpace(s[|s| - 1])
    ensures Trim(s) == s
  {}

  lemma NoBracketNoDone(s: string)
    requires '[' !in s
    ensures !Contains(s, DONE) && s != DONE
  {
    forall i | 0 <= i <= |s| ensures !(DONE <= s[i..]) {
      if |s| - i >= |DONE| { assert s[i..][0] == s[i] && s[i] in s; }
    }
    assert DONE[0] in DONE;
  }

  lemma DataOfLine(x: string, lines: seq<string>)
    requires Plain(x)
    ensures DataLines([Line(x)] + lines) == [x] + DataLines(lines)
  {
    hide IsSpace;
    assert IsSpace(' ') by { SpaceIsSpace(); }
    assert Line(x)[|DATA|..] == x && x[0] in x;
    assert ([Line(x)] + lines)[1..] == lines;
  }

  lemma SpaceIsSpace()
    ensures IsSpace(' ') && IsSpace('\n') && IsSpace('\r')
  {}

  lemma CarriageReturnIsNoData(lines: seq<string>)
    ensures DataLines(["\r"] + lines) == DataLines(lines)
  {
    assert (["\r"] + lines)[1..] == lines && !(DATA <= "\r");
  }

  /** What a raw event yields, once its data is known. */
  lemma EmitsData<T>(parse: string -> Option<T>, raw: string, values: seq<string>, data: string)
    requires DataLines(SplitLines(raw)) == values && values != [] && Join(values, "\n") == data
    requires data != "" && data != DONE && !IsSpace(data[0]) && !IsSpace(data[|data| - 1])
    ensures Emit(parse, raw) == One(parse, data)
  {
    PlainIsTrimmed(data);
    hide SplitLines, DataLines, Join, Trim, IsSpace;
  }

  lemma PlainEnds(x: string)
    requires Plain(x)
    ensures !IsSpace(x[0]) && !IsSpace(x[|x| - 1]) && '[' !in x
  {
    hide IsSpace;
    assert x[0] in x && x[|x| - 1] in x;
  }

  lemma OneLineEmits<T>(parse: string -> Option<T>, x: string)
    requires Plain(x)
    ensures Emit(parse, Line(x)) == One(parse, x)
  {
    LineIsPlain(x);
    PlainEnds(x);
    DataOfOneLine(x);
    hide *;
    LineThenMore(Line(x), "");
    NoBracketNoDone(x);
    EmitsData(parse, Line(x), [x], x);
  }

  lemma DataOfOneLine(x: string)
    requires Plain(x)
    ensures DataLines([Line(x)]) == [x] && Join([x], "\n") == x && x != ""
  {
    DataOfLine(x, []);
    assert [Line(x)] + [] == [Line(x)] && [x] + DataLines([]) == [x];
  }

  lemma DataOfTwoLines(x: string, y: string)
    requires Plain(x) && Plain(y)
    ensures DataLines([Line(x), "\r", Line(y)]) == [x, y]
  {
    DataOfLine(x, ["\r", Line(y)]);
    CarriageReturnIsNoData([Line(y)]);
    DataOfOneLine(y);
    hide *;
    assert ["\r"] + [Line(y)] == ["\r", Line(y)];
    assert [Line(x)] + ["\r", Line(y)] == [Line(x), "\r", Line(y)];
  }

  lemma LinesOfTwo(x: string, y: string)
    requires Plain(x) && Plain(y)
    ensures SplitLines(Line(x) + ("\n" + ("\r" + ("\n" + Line(y))))) == [Line(x), "\r", Line(y)]
  {
    LineIsPlain(x);
    LineIsPlain(y);
    hide *;
    LineThenMore(Line(x), "\r" + ("\n" + Line(y)));
    LineThenMore("\r", Line(y));
    LineThenMore(Line(y), "");
    assert [Line(x)] + (["\r"] + [Line(y)]) == [Line(x), "\r", Line(y)];
  }

  lemma JoinedPair(x: string, y: string)
    requires Plain(x) && Plain(y)
    ensures var data := x + "\n" + y;
      && Join([x, y], "\n") == data && data != "" && '[' !in data
      && !IsSpace(data[0]) && !IsSpace(data[|data| - 1])
  {
    PlainEnds(x);
    PlainEnds(y);
    hide IsSpace;
    assert [x, y][1..] == [y] && Join([y], "\n") == y;
  }

  lemma TwoLinesEmitOne<T>(parse: string -> Option<T>, x: string, y: string)
    requires Plain(x) && Plain(y)
    ensures Emit(parse, Line(x) + ("\n" + ("\r" + ("\n" + Line(y))))) == One(parse, x + "\n" + y)
  {
    hide *;
    LinesOfTwo(x, y);
    DataOfTwoLines(x, y);
    JoinedPair(x, y);
    NoBracketNoDone(x + "\n" + y);
    EmitsData(parse, Line(x) + ("\n" + ("\r" + ("\n" + Line(y)))), [x, y], x + "\n" + y);
  }

  // ---- The two streams ------------------------------------------------------------------------

  function Whole(x: string, y: string, bytes: nat): seq<Chunk> {
    [Chunk(false, bytes, Line(x) + ("\r\n" + ("\r\n" + Line(y))))]
  }

  function Cut(x: string, y: string, bytes: nat, more: nat): seq<Chunk> {
    [Chunk(false, bytes, Line(x) + ("\r\n" + "\r")), Chunk(false, more, "\n" + Line(y))]
  }

  predicate Taken(c: Chunk) { !c.aborted && c.bytes > 0 }

  lemma AdmittedOne(c: Chunk)
    requires Taken(c) && c.bytes <= MAX_STREAM_BYTES
    ensures Admitted([c]) && TextOf([c]) == Unix(c.text) && TotalBytes([c]) == c.bytes
  {
    assert TextOf([]) == "" && TotalBytes([]) == 0;
    hide Unix, TextOf, TotalBytes;
    ChunkAppended([], c);
    assert [] + [c] == [c] && "" + Unix(c.text) == Unix(c.text);
  }

  lemma AdmittedTwo(c: Chunk, d: Chunk)
    requires Taken(c) && Taken(d) && c.bytes + d.bytes <= MAX_STREAM_BYTES
    ensures Admitted([c, d]) && TextOf([c, d]) == Unix(c.text) + Unix(d.text)
  {
    hide Unix, TextOf, TotalBytes;
    AdmittedOne(c);
    ChunkAppended([c], d);
    assert [c] + [d] == [c, d];
  }

  lemma WholeIsAdmitted(x: string, y: string, bytes: nat)
    requires Plain(x) && Plain(y) && 0 < bytes <= MAX_STREAM_BYTES
    ensures Admitted(Whole(x, y, bytes)) && TextOf(Whole(x, y, bytes)) == Line(x) + ("\n" + ("\n" + Line(y)))
  {
    hide Unix, TextOf, TotalBytes, Admitted, Line, Plain;
    WholeText(x, y);
    AdmittedOne(Whole(x, y, bytes)[0]);
  }

  lemma CutIsAdmitted(x: string, y: string, bytes: nat, more: nat)
    requires Plain(x) && Plain(y) && bytes > 0 && more > 0 && bytes + more <= MAX_STREAM_BYTES
    ensures Admitted(Cut(x, y, bytes, more))
    ensures TextOf(Cut(x, y, bytes, more)) == Line(x) + ("\n" + ("\r" + ("\n" + Line(y))))
  {
    hide Unix, TextOf, TotalBytes, Admitted, Line, Plain;
    TextOfCut(x, y);
    AdmittedTwo(Cut(x, y, bytes, more)[0], Cut(x, y, bytes, more)[1]);
  }

  lemma OnePieceThrough<T>(parse: string -> Option<T>, piece: string)
    requires !Contains(piece, DONE)
    ensures EmitThrough(parse, [piece]) == Emit(parse, piece) && EmitThrough(parse, []) == []
    ensures !AnyDone([piece]) && !AnyDone([])
  {
    hide Emit, Contains;
    assert [piece][1..] == [];
    assert Emit(parse, piece) + [] == Emit(parse, piece);
  }

  /** The frames of a stream that is one finished event and a tail. */
  lemma EventAndTail<T>(parse: string -> Option<T>, chunks: seq<Chunk>, event: string, tail: string)
    requires Admitted(chunks) && SplitBlank(TextOf(chunks)) == [event, tail] && !Contains(event, DONE)
    requires tail != "" && Trim(tail) == tail
    ensures Batch(parse, chunks, false, "") == (Emit(parse, event) + Emit(parse, tail), Finished)
  {
    OnePieceThrough(parse, event);
    hide Admitted, SplitBlank, TextOf, Emit, EmitThrough, Contains, AnyDone, Trim;
    var text := TextOf(chunks);
    assert Complete(text) == [event] && Tail(text) == tail && tail + "" == tail;
    EndOfStream(parse, chunks, false, "");
  }

  /** The frames of a stream without any blank line. */
  lemma OnlyTail<T>(parse: string -> Option<T>, chunks: seq<Chunk>, tail: string)
    requires Admitted(chunks) && SplitBlank(TextOf(chunks)) == [tail] && tail != "" && Trim(tail) == tail
    ensures Batch(parse, chunks, false, "") == (Emit(parse, tail), Finished)
  {
    assert EmitThrough(parse, []) == [] && !AnyDone([]);
    hide Admitted, SplitBlank, TextOf, Emit, EmitThrough, Contains, AnyDone, Trim;
    var text := TextOf(chunks);
    assert Complete(text) == [] && Tail(text) == tail && tail + "" == tail;
    EndOfStream(parse, chunks, false, "");
    assert [] + Emit(parse, tail) == Emit(parse, tail);
  }

  lemma LineIsTrimmed(y: string)
    requires Plain(y)
    ensures Line(y) != "" && Trim(Line(y)) == Line(y) && !Contains(Line(y), DONE)
  {
    LineIsPlain(y);
    PlainEnds(Line(y));
    hide *;
    NoBracketNoDone(Line(y));
    PlainIsTrimmed(Line(y));
  }

  lemma WholeYieldsTwo<T>(parse: string -> Option<T>, x: string, y: string, bytes: nat)
    requires Plain(x) && Plain(y) && 0 < bytes <= MAX_STREAM_BYTES
    ensures Batch(parse, Whole(x, y, bytes), false, "") == (One(parse, x) + One(parse, y), Finished)
  {
    LineIsPlain(x);
    LineIsPlain(y);
    hide *;
    WholeIsAdmitted(x, y, bytes);
    TwoPieces(Line(x), Line(y));
    LineIsTrimmed(x);
    LineIsTrimmed(y);
    EventAndTail(parse, Whole(x, y, bytes), Line(x), Line(y));
    OneLineEmits(parse, x);
    OneLineEmits(parse, y);
  }

  lemma CutTextIsTrimmed(x: string, y: string)
    requires Plain(x) && Plain(y)
    ensures var text := Line(x) + ("\n" + ("\r" + ("\n" + Line(y)))); text != "" && Trim(text) == text
  {
    LineIsPlain(x);
    LineIsPlain(y);
    PlainEnds(Line(x));
    PlainEnds(Line(y));
    hide *;
    var text := Line(x) + ("\n" + ("\r" + ("\n" + Line(y))));
    assert text[0] == Line(x)[0] && text[|text| - 1] == Line(y)[|Line(y)| - 1];
    PlainIsTrimmed(text);
  }

  lemma CutYieldsOne<T>(parse: string -> Option<T>, x: string, y: string, bytes: nat, more: nat)
    requires Plain(x) && Plain(y) && bytes > 0 && more > 0 && bytes + more <= MAX_STREAM_BYTES
    ensures Batch(parse, Cut(x, y, bytes, more), false, "") == (One(parse, x + "\n" + y), Finished)
  {
    LineIsPlain(x);
    LineIsPlain(y);
    hide *;
    CutIsAdmitted(x, y, bytes, more);
    OnePiece(Line(x), Line(y));
    CutTextIsTrimmed(x, y);
    OnlyTail(parse, Cut(x, y, bytes, more), Line(x) + ("\n" + ("\r" + ("\n" + Line(y)))));
    TwoLinesEmitOne(parse, x, y);
  }

  /** One text, two chunkings: whole it yields the frames of x and y, cut inside the second CRLF at most one frame. */
  lemma SplitCrlfMergesEvents<T>(parse: string -> Option<T>, x: string, y: string, bytes: nat, more: nat)
    requires Plain(x) && Plain(y) && bytes > 0 && more > 0 && bytes + more <= MAX_STREAM_BYTES
    requires parse(x).Some? && parse(y).Some?
    ensures Concat(Texts(Whole(x, y, bytes + more))) == Concat(Texts(Cut(x, y, bytes, more)))
    ensures Batch(parse, Whole(x, y, bytes + more), false, "") == ([parse(x).value, parse(y).value], Finished)
    ensures Batch(parse, Cut(x, y, bytes, more), false, "") == (One(parse, x + "\n" + y), Finished)
    ensures Batch(parse, Whole(x, y, bytes + more), false, "") != Batch(parse, Cut(x, y, bytes, more), false, "")
  {
    hide Batch, Whole, Cut, Plain, Texts, Concat;
    WholeYieldsTwo(parse, x, y, bytes + more);
    CutYieldsOne(parse, x, y, bytes, more);
    SameConcat(x, y, bytes, more);
    var two := [parse(x).value, parse(y).value];
    assert One(parse, x) + One(parse, y) == two;
    assert |One(parse, x + "\n" + y)| < |two|;
  }

  lemma SameConcat(x: string, y: string, bytes: nat, more: nat)
    requires bytes > 0 && more > 0
    ensures Concat(Texts(Whole(x, y, bytes + more))) == Concat(Texts(Cut(x, y, bytes, more)))
  {
    var whole := Line(x) + ("\r\n" + ("\r\n" + Line(y)));
    var first, second := Line(x) + ("\r\n" + "\r"), "\n" + Line(y);
    ConcatOf(whole, "");
    ConcatOf(first, second);
    assert Texts(Whole(x, y, bytes + more)) == [whole];
    assert Texts(Cut(x, y, bytes, more)) == [first, second];
    hide *;
    assert whole == first + second;
  }

  lemma ConcatOf(s: string, t: string)
    ensures Concat([s]) == s && Concat([s, t]) == s + t
  {
    assert [s][1..] == [] && [s, t][1..] == [t] && [t][1..] == [];
    assert s + "" == s && t + "" == t;
  }
}
