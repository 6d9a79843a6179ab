/** What one event of a stream yields, and where a stream ends, in terms of its lines. */
module SseEvents {
  import opened Wrappers
  import opened Text
  import opened SseStream

  // ---- Lines, data lines, trimming --------------------------------------------------------------

  /** The lines of a text are the one list of texts without newline that newlines join to it. */
  lemma {:induction false} LinesExactly(s: string, lines: seq<string>)
    ensures SplitLines(s) == lines <==> lines != [] && Join(lines, "\n") == s && forall l | l in lines :: '\n' !in l
  {
    SplitJoins(s);
    if lines != [] && Join(lines, "\n") == s && forall l | l in lines :: '\n' !in l { JoinSplits(lines); }
  }

  lemma {:induction false} SplitJoins(s: string)
    ensures Join(SplitLines(s), "\n") == s && forall l | l in SplitLines(s) :: '\n' !in l
  {
    if s != "" {
      SplitJoins(s[1..]);
      var lines := SplitLines(s[1..]);
      assert s == [s[0]] + s[1..];
      if s[0] == '\n' {
        assert ([""] + lines)[1..] == lines;
      } else {
        HeadJoins(s[0], lines);
      }
    }
  }

  lemma HeadJoins(c: char, lines: seq<string>)
    requires lines != []
    ensures Join([[c] + lines[0]] + lines[1..], "\n") == [c] + Join(lines, "\n")
  {
    var longer := [[c] + lines[0]] + lines[1..];
    assert longer[0] == [c] + lines[0] && longer[1..] == lines[1..] && |longer| == |lines|;
    if |lines| > 1 { Prepended(c, lines[0], Join(lines[1..], "\n")); }
  }

  lemma Prepended(c: char, line: string, rest: string)
    ensures [c] + line + "\n" + rest == [c] + (line + "\n" + rest)
  {}

  lemma {:induction false} JoinSplits(lines: seq<string>)
    requires lines != [] && forall l | l in lines :: '\n' !in l
    ensures SplitLines(Join(lines, "\n")) == lines
  {
    hide SplitLines, Join;
    assert lines[0] in lines;
    JoinHead(lines);
    if |lines| == 1 {
      NoLines();
      OneLine(lines[0], "");
      assert lines[0] + "" == lines[0] && [lines[0]] + [] == lines;
    } else {
      var tail := lines[1..];
      var rest := Join(tail, "\n");
      JoinSplits(tail);
      NewLine(rest);
      OneLine(lines[0], "\n" + rest);
      assert lines[0] + ("\n" + rest) == lines[0] + "\n" + rest;
      assert lines == [lines[0]] + tail && lines[0] + "" == lines[0] && ([""] + tail)[1..] == tail;
    }
  }

  lemma JoinHead(lines: seq<string>)
    requires lines != []
    ensures Join(lines, "\n") == if |lines| == 1 then lines[0] else lines[0] + "\n" + Join(lines[1..], "\n")
  {}

  lemma NoLines()
    ensures SplitLines("") == [""]
  {}

  lemma NewLine(rest: string)
    ensures SplitLines("\n" + rest) == [""] + SplitLines(rest)
  {
    assert ("\n" + rest)[1..] == rest;
  }

  lemma {:induction false} OneLine(line: string, rest: string)
    requires '\n' !in line
    ensures var more := SplitLines(rest); SplitLines(line + rest) == [line + more[0]] + more[1..]
  {
    var more := SplitLines(rest);
    if line == "" {
      assert line + rest == rest && line + more[0] == more[0];
    } else {
      OneLine(line[1..], rest);
      assert (line + rest)[1..] == line[1..] + rest;
      assert [line[0]] + (line[1..] + more[0]) == line + more[0];
    }
  }

  /** Data lines are read one by one, in order: a value each, without one leading space; other lines give none. */
  lemma DataExactly(a: seq<string>, b: seq<string>, line: string)
    ensures DataLines(a + b) == DataLines(a) + DataLines(b)
    ensures DataLines([]) == []
    ensures !("data:" <= line) ==> DataLines([line]) == []
    ensures line == "" || line[0] != ' ' ==> DataLines(["data:" + line]) == [line]
    ensures DataLines(["data: " + line]) == [line]
  {
    DataConcat(a, b);
    OneDataLine(line);
    OneDataLine(" " + line);
    assert (" " + line)[1..] == line && "data:" + (" " + line) == "data: " + line;
    hide DataLines;
    NoDataLine(line);
  }

  lemma {:induction false} DataConcat(a: seq<string>, b: seq<string>)
    ensures DataLines(a + b) == DataLines(a) + DataLines(b)
  {
    if a != [] {
      DataConcat(a[1..], b);
      assert (a + b)[1..] == a[1..] + b;
    } else {
      assert a + b == b;
    }
  }

  lemma OneDataLine(value: string)
    ensures DataLines(["data:" + value]) == [if value != "" && value[0] == ' ' then value[1..] else value]
  {
    assert ("data:" + value)[5..] == value;
    assert ["data:" + value][1..] == [];
  }

  lemma NoDataLine(line: string)
    ensures DataLines([]) == [] && (!("data:" <= line) ==> DataLines([line]) == [])
  {}

  /** t is s without the white space around it. */
  ghost predicate Trims(s: string, t: string) {
    && (t != "" ==> !IsSpace(t[0]) && !IsSpace(t[|t| - 1]))
    && exists left, right | AllSpace(left) && AllSpace(right) :: s == left + t + right
  }

  predicate AllSpace(s: string) { forall c | c in s :: IsSpace(c) }

  lemma {:induction false} TrimTrims(s: string)
    ensures Trims(s, Trim(s))
  {
    var left := StartTrims(s);
    var t := TrimStart(s);
    var right := EndTrims(t);
    assert s == left + TrimEnd(t) + right;
    assert Trim(s) == TrimEnd(t);
    if TrimEnd(t) != "" { assert TrimEnd(t)[0] == t[0]; }
  }

  lemma {:induction false} StartTrims(s: string) returns (left: string)
    ensures AllSpace(left) && s == left + TrimStart(s) && (TrimStart(s) != "" ==> !IsSpace(TrimStart(s)[0]))
  {
    left := "";
    if s != "" && IsSpace(s[0]) {
      var more := StartTrims(s[1..]);
      left := [s[0]] + more;
      assert s == [s[0]] + s[1..];
    }
  }

  lemma {:induction false} EndTrims(s: string) returns (right: string)
    ensures AllSpace(right) && s == TrimEnd(s) + right
    ensures TrimEnd(s) != "" ==> !IsSpace(TrimEnd(s)[|TrimEnd(s)| - 1])
  {
    right := "";
    if s != "" && IsSpace(s[|s| - 1]) {
      var more := EndTrims(s[..|s| - 1]);
      right := more + [s[|s| - 1]];
      assert s == s[..|s| - 1] + [s[|s| - 1]];
    }
  }

  /** There is one way to trim a text, and Trim finds it. */
  lemma TrimExactly(s: string, t: string)
    ensures Trim(s) == t <==> Trims(s, t)
  {
    TrimTrims(s);
    if Trims(s, t) { TrimsOnce(s, t, Trim(s)); }
  }

  lemma TrimsOnce(s: string, t: string, u: string)
    requires Trims(s, t) && Trims(s, u)
    ensures t == u
  {
    TrimsToNothing(s, t);
    TrimsToNothing(s, u);
    if t != "" && u != "" {
      var a, b :| AllSpace(a) && AllSpace(b) && s == a + t + b;
      var c, d :| AllSpace(c) && AllSpace(d) && s == c + u + d;
      SameStart(a, t, b, c, u, d);
      SameStart(c, u, d, a, t, b);
      SameEnd(a, t, b, c, u, d);
      SameEnd(c, u, d, a, t, b);
      assert t == s[|a|..|a| + |t|] == u;
    }
  }

  lemma TrimsToNothing(s: string, t: string)
    requires Trims(s, t)
    ensures t == "" <==> AllSpace(s)
  {
    var a, b :| AllSpace(a) && AllSpace(b) && s == a + t + b;
    if t != "" { assert s[|a|] == t[0]; }
  }

  lemma SameStart(a: string, t: string, b: string, c: string, u: string, d: string)
    requires a + t + b == c + u + d && t != "" && u != "" && AllSpace(a) && !IsSpace(u[0])
    ensures |a| <= |c|
  {
    hide IsSpace;
    var s := a + t + b;
    assert forall i | 0 <= i < |a| :: s[i] == a[i] && a[i] in a;
    assert (c + u + d)[|c|] == u[0] && s[|c|] == u[0];
  }

  lemma SameEnd(a: string, t: string, b: string, c: string, u: string, d: string)
    requires a + t + b == c + u + d && t != "" && u != "" && AllSpace(b) && !IsSpace(u[|u| - 1])
    ensures |c| + |u| <= |a| + |t|
  {
    hide IsSpace;
    var s, k := a + t + b, |c| + |u| - 1;
    assert forall i | |a| + |t| <= i < |s| :: s[i] == b[i - |a| - |t|] && s[i] in b;
    assert (c + u + d)[k] == u[|u| - 1] && s[k] == u[|u| - 1];
  }

  /** An event yields the frame its trimmed data parses to, unless that is nothing or [DONE]; never more than one. */
  lemma EmitExactly<T>(parse: string -> Option<T>, raw: string, data: string)
    requires Trims(Join(DataLines(SplitLines(raw)), "\n"), data)
    ensures |Emit(parse, raw)| <= 1
    ensures forall frame :: Emit(parse, raw) == [frame] <==> data !in ["", "[DONE]"] && parse(data) == Some(frame)
  {
    TrimExactly(Join(DataLines(SplitLines(raw)), "\n"), data);
    hide DataLines, SplitLines, Trim, Trims;
    if DataLines(SplitLines(raw)) == [] {
      TrimExactly("", "");
      TrimNothing();
    }
  }

  lemma TrimNothing()
    ensures Trim("") == ""
  {}

  // ---- The stream ------------------------------------------------------------------------------------

  function EmitAll<T>(parse: string -> Option<T>, pieces: seq<string>): seq<T> {
    if pieces == [] then [] else EmitAll(parse, pieces[..|pieces| - 1]) + Emit(parse, pieces[|pieces| - 1])
  }

  predicate HasDone(piece: string) { exists i | 0 <= i <= |piece| :: "[DONE]" <= piece[i..] }

  /** Chunks are taken in up to the first that is aborted or takes the stream past 16 MiB. */
  predicate TakenIn(chunks: seq<Chunk>, k: nat) {
    && k <= |chunks| && (forall r | r in chunks[..k] :: !r.aborted) && TotalBytes(chunks[..k]) <= 16777216
    && (k < |chunks| ==> chunks[k].aborted || TotalBytes(chunks[..k + 1]) > 16777216)
  }

  /** A finished event that mentions [DONE] is the last one read, whatever follows it. */
  lemma DoneEndsStream<T>(parse: string -> Option<T>, chunks: seq<Chunk>, abortedAtEnd: bool, flush: string,
                          k: nat, d: nat)
    requires TakenIn(chunks, k)
    requires var pieces := Complete(TextOf(chunks[..k]));
      d < |pieces| && HasDone(pieces[d]) && forall i | 0 <= i < d :: !HasDone(pieces[i])
    ensures Batch(parse, chunks, abortedAtEnd, flush)
      == (EmitAll(parse, Complete(TextOf(chunks[..k]))[..d + 1]), Finished)
  {
    TakenInIsReadable(chunks, k);
    var pieces := Complete(TextOf(chunks[..k]));
    hide TextOf, Complete, Readable, TakenIn, Emit;
    assert Contains(pieces[d], DONE);
    ThroughDone(parse, pieces, d);
  }

  /**
   * Without one, all finished events are read; then an abort, the cap, or the trimmed rest with the decoder's
   * flush.
   */
  lemma StreamWithoutDone<T>(parse: string -> Option<T>, chunks: seq<Chunk>, abortedAtEnd: bool, flush: string,
                             k: nat, rest: string)
    requires TakenIn(chunks, k) && Trims(Tail(TextOf(chunks[..k])) + flush, rest)
    requires forall p | p in Complete(TextOf(chunks[..k])) :: !HasDone(p)
    ensures var frames := EmitAll(parse, Complete(TextOf(chunks[..k])));
      Batch(parse, chunks, abortedAtEnd, flush) ==
        if k < |chunks| then (frames, if chunks[k].aborted then Cancelled else TooLarge)
        else if abortedAtEnd then (frames, Cancelled)
        else (frames + (if rest == "" then [] else Emit(parse, rest)), Finished)
  {
    TakenInIsReadable(chunks, k);
    TrimExactly(Tail(TextOf(chunks[..k])) + flush, rest);
    var pieces := Complete(TextOf(chunks[..k]));
    hide TextOf, Complete, Tail, Readable, TakenIn, Emit, Trim, Trims;
    forall p | p in pieces ensures !Contains(p, DONE) { assert !HasDone(p); }
    AllPieces(parse, pieces);
  }

  lemma TakenInIsReadable(chunks: seq<Chunk>, k: nat)
    requires TakenIn(chunks, k)
    ensures Readable(chunks) == k
  {
    if k == |chunks| {
      assert chunks[..k] == chunks;
    } else {
      NextChunk(chunks, k);
      ReadableIs(chunks, k);
    }
  }

  lemma {:induction false} AllPieces<T>(parse: string -> Option<T>, pieces: seq<string>)
    requires forall p | p in pieces :: !Contains(p, DONE)
    ensures EmitThrough(parse, pieces) == EmitAll(parse, pieces) && !AnyDone(pieces)
  {
    hide Contains, Emit;
    if pieces != [] {
      var init := pieces[..|pieces| - 1];
      AllPieces(parse, init);
      EmitThroughNext(parse, init, pieces[|pieces| - 1]);
      assert pieces == init + [pieces[|pieces| - 1]];
    }
  }

  lemma ThroughDone<T>(parse: string -> Option<T>, pieces: seq<string>, d: nat)
    requires d < |pieces| && Contains(pieces[d], DONE) && forall i | 0 <= i < d :: !Contains(pieces[i], DONE)
    ensures EmitThrough(parse, pieces) == EmitAll(parse, pieces[..d + 1]) && AnyDone(pieces)
  {
    hide *;
    var init, cut, rest := pieces[..d], pieces[..d + 1], pieces[d + 1..];
    assert pieces == cut + rest && cut == init + [pieces[d]];
    NoneBefore(pieces, d);
    AllPieces(parse, init);
    EmitThroughNext(parse, init, pieces[d]);
    OneMorePiece(parse, init, pieces[d]);
    EmitThroughAppend(parse, cut, rest);
    AnyOfMore(cut, rest);
  }

  lemma NoneBefore(pieces: seq<string>, d: nat)
    requires d <= |pieces| && forall i | 0 <= i < d :: !Contains(pieces[i], DONE)
    ensures forall p | p in pieces[..d] :: !Contains(p, DONE)
  {
    hide Contains;
  }

  lemma OneMorePiece<T>(parse: string -> Option<T>, pieces: seq<string>, piece: string)
    ensures EmitAll(parse, pieces + [piece]) == EmitAll(parse, pieces) + Emit(parse, piece)
  {
    hide Emit;
    assert (pieces + [piece])[..|pieces|] == pieces;
  }

  lemma AnyOfMore(cut: seq<string>, rest: seq<string>)
    ensures AnyDone(cut) ==> AnyDone(cut + rest)
  {
    hide Contains;
  }
}
