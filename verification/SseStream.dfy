/** The incremental SSE parser and the batch reading of the same text. */
module SseStream {
  import opened Wrappers
  import opened Text

  const MAX_STREAM_BYTES := 16 * 1024 * 1024

  /** One reader.read(): the signal before it, its byte count and the text it decodes to. */
  datatype Chunk = Chunk(aborted: bool, bytes: nat, text: string)

  datatype Outcome = Finished | Cancelled | TooLarge

  // ---- String operations ------------------------------------------------------------

  /** replace(/\r\n/g, "\n") */
  function Unix(s: string): string {
    if s == "" then ""
    else if "\r\n" <= s then "\n" + Unix(s[2..])
    else [s[0]] + Unix(s[1..])
  }

  predicate BlankAt(s: string, i: nat) { i + 2 <= |s| && s[i] == '\n' && s[i + 1] == '\n' }

  /** indexOf("\n\n") */
  function FirstBlank(s: string): (i: int)
    ensures -1 <= i
    ensures i >= 0 ==> i + 2 <= |s| && BlankAt(s, i)
    ensures forall k | 0 <= k < (if i >= 0 then i else |s|) :: !BlankAt(s, k)
  {
    if |s| < 2 then -1
    else if BlankAt(s, 0) then 0
    else
      var i := FirstBlank(s[1..]);
      assert forall k | 0 < k < |s| :: BlankAt(s, k) <==> BlankAt(s[1..], k - 1);
      if i < 0 then -1 else i + 1
  }

  /** split(sep) for a one-character separator. */
  function SplitLines(s: string): (lines: seq<string>)
    ensures lines != []
  {
    if s == "" then [""]
    else if s[0] == '\n' then [""] + SplitLines(s[1..])
    else
      var lines := SplitLines(s[1..]);
      [[s[0]] + lines[0]] + lines[1..]
  }

  predicate Contains(s: string, part: string) { exists i | 0 <= i <= |s| :: part <= s[i..] }

  /** ECMAScript white space and line terminators. */
  predicate IsSpace(c: char) {
    var x := c as int;
    x in {9, 10, 11, 12, 13, 32, 0xa0, 0x1680, 0x2028, 0x2029, 0x202f, 0x205f, 0x3000, 0xfeff} || 0x2000 <= x <= 0x200a
  }

  function TrimStart(s: string): string {
    if s != "" && IsSpace(s[0]) then TrimStart(s[1..]) else s
  }

  function Trim(s: string): string
  {
    var t := TrimStart(s);
    if t != "" && IsSpace(t[|t| - 1]) then TrimEnd(t) else t
  }

  function TrimEnd(s: string): string {
    if s != "" && IsSpace(s[|s| - 1]) then TrimEnd(s[..|s| - 1]) else s
  }

  // ---- One event ----------------------------------------------------------------------

  const DATA := "data:"
  const DONE := "[DONE]"

  function DataLines(lines: seq<string>): seq<string> {
    if lines == [] then []
    else if DATA <= lines[0] then
      var value := lines[0][|DATA|..];
      [if value != "" && value[0] == ' ' then value[1..] else value] + DataLines(lines[1..])
    else DataLines(lines[1..])
  }

  /** The parsed frames one raw event yields: none or one. JSON.parse is the parameter. */
  function Emit<T>(parse: string -> Option<T>, raw: string): seq<T> {
    var lines := DataLines(SplitLines(raw));
    if lines == [] then []
    else
      var data := Trim(Join(lines, "\n"));
      if data == "" || data == DONE then []
      else match parse(data)
        case None => []
        case Some(frame) => [frame]
  }

  // ---- The batch reading ---------------------------------------------------------------

  /** split("\n\n"): the last piece is the unfinished tail. */
  function SplitBlank(s: string): (pieces: seq<string>)
    ensures pieces != []
    decreases |s|
  {
    var i := FirstBlank(s);
    if i < 0 then [s] else [s[..i]] + SplitBlank(s[i + 2..])
  }

  function Complete(s: string): seq<string> { SplitBlank(s)[..|SplitBlank(s)| - 1] }

  function Tail(s: string): string { SplitBlank(s)[|SplitBlank(s)| - 1] }

  predicate AnyDone(pieces: seq<string>) { exists p | p in pieces :: Contains(p, DONE) }

  /** The frames of the pieces up to and including the first that contains [DONE]. */
  function EmitThrough<T>(parse: string -> Option<T>, pieces: seq<string>): seq<T> {
    if pieces == [] then []
    else Emit(parse, pieces[0]) + (if Contains(pieces[0], DONE) then [] else EmitThrough(parse, pieces[1..]))
  }

  function EmitTail<T>(parse: string -> Option<T>, text: string): seq<T> {
    if Trim(text) == "" then [] else Emit(parse, Trim(text))
  }

  function Contribution(r: Chunk): string { if r.bytes > 0 then Unix(r.text) else "" }

  function TextOf(chunks: seq<Chunk>): string {
    if chunks == [] then "" else TextOf(chunks[..|chunks| - 1]) + Contribution(chunks[|chunks| - 1])
  }

  function TotalBytes(chunks: seq<Chunk>): nat {
    if chunks == [] then 0 else TotalBytes(chunks[..|chunks| - 1]) + chunks[|chunks| - 1].bytes
  }

  /** Neither an abort nor the byte cap stops the stream within these chunks. */
  predicate Admitted(chunks: seq<Chunk>) {
    (forall r | r in chunks :: !r.aborted) && TotalBytes(chunks) <= MAX_STREAM_BYTES
  }

  /** How many chunks are taken in before an abort or the byte cap. */
  function Readable(chunks: seq<Chunk>): (k: nat)
    ensures k <= |chunks| && Admitted(chunks[..k])
    ensures k < |chunks| ==> !Admitted(chunks[..k + 1])
  {
    if Admitted(chunks) then
      assert chunks[..|chunks|] == chunks;
      |chunks|
    else
      var init := chunks[..|chunks| - 1];
      var k := Readable(init);
      assert init[..k] == chunks[..k];
      assert k < |init| ==> init[..k + 1] == chunks[..k + 1];
      assert k == |init| ==> chunks[..k + 1] == chunks;
      k
  }

  /** What the whole stream yields, read as one text. */
  function Batch<T>(parse: string -> Option<T>, chunks: seq<Chunk>, abortedAtEnd: bool, flush: string): (seq<T>,
                    Outcome) {
    var k := Readable(chunks);
    var text := TextOf(chunks[..k]);
    var frames := EmitThrough(parse, Complete(text));
    if AnyDone(Complete(text)) then (frames, Finished)
    else if k < |chunks| then (frames, if chunks[k].aborted then Cancelled else TooLarge)
    else if abortedAtEnd then (frames, Cancelled)
    else (frames + EmitTail(parse, Tail(text) + flush), Finished)
  }

  // ---- The pieces are the blank-line split -----------------------------------------------

  /** pieces joined by blank lines give the text, and every cut is at the first blank line. */
  ghost predicate IsBlankSplit(pieces: seq<string>, text: string) {
    && pieces != [] && Join(pieces, "\n\n") == text
    && FirstBlank(pieces[|pieces| - 1]) < 0
    && forall i | 0 <= i < |pieces| - 1 :: FirstBlank(pieces[i] + "\n\n") == |pieces[i]|
  }

  lemma FirstBlankIs(s: string, i: nat)
    requires BlankAt(s, i) && forall k | 0 <= k < i :: !BlankAt(s, k)
    ensures FirstBlank(s) == i
  {}

  /** The first blank line of a text stays the first when text is appended. */
  lemma FirstBlankExtends(s: string, t: string)
    requires FirstBlank(s) >= 0
    ensures FirstBlank(s + t) == FirstBlank(s)
  {
    var i := FirstBlank(s);
    assert forall k | 0 <= k <= i :: BlankAt(s + t, k) <==> BlankAt(s, k);
    FirstBlankIs(s + t, i);
  }

  /** SplitBlank is the one list of pieces that cuts a text at its first blank lines. */
  lemma {:induction false} BlankSplitIsUnique(pieces: seq<string>, text: string)
    ensures IsBlankSplit(pieces, text) <==> pieces == SplitBlank(text)
  {
    hide *;
    SplitBlankSplits(text);
    if IsBlankSplit(pieces, text) {
      BlankSplitIsSplitBlank(pieces, text);
    }
  }

  lemma {:induction false} SplitBlankSplits(text: string)
    ensures IsBlankSplit(SplitBlank(text), text)
    decreases |text|
  {
    hide FirstBlank;
    var i := FirstBlank(text);
    if i >= 0 {
      SplitBlankSplits(text[i + 2..]);
      assert text == text[..i] + "\n\n" + text[i + 2..];
      assert forall k | 0 <= k < i :: BlankAt(text[..i] + "\n\n", k) <==> BlankAt(text, k);
      FirstBlankIs(text[..i] + "\n\n", i);
      BlankSplitCons(text[..i], SplitBlank(text[i + 2..]), text[i + 2..]);
    }
  }

  lemma BlankSplitCons(piece: string, pieces: seq<string>, rest: string)
    requires IsBlankSplit(pieces, rest) && FirstBlank(piece + "\n\n") == |piece|
    ensures IsBlankSplit([piece] + pieces, piece + "\n\n" + rest)
  {
    JoinCons(piece, pieces);
    hide FirstBlank, Join;
    var longer := [piece] + pieces;
    assert longer[|longer| - 1] == pieces[|pieces| - 1];
    forall i | 0 <= i < |longer| - 1 ensures FirstBlank(longer[i] + "\n\n") == |longer[i]| {
      if i > 0 { assert longer[i] == pieces[i - 1]; }
    }
  }

  lemma JoinCons(piece: string, pieces: seq<string>)
    requires pieces != []
    ensures Join([piece] + pieces, "\n\n") == piece + "\n\n" + Join(pieces, "\n\n")
  {
    assert ([piece] + pieces)[1..] == pieces;
  }

  lemma {:induction false} BlankSplitIsSplitBlank(pieces: seq<string>, text: string)
    requires IsBlankSplit(pieces, text)
    ensures pieces == SplitBlank(text)
  {
    hide FirstBlank;
    if |pieces| > 1 {
      var piece, tail := pieces[0], pieces[1..];
      var rest := Join(tail, "\n\n");
      FirstBlankExtends(piece + "\n\n", rest);
      assert text == piece + "\n\n" + rest;
      assert text[..|piece|] == piece && text[|piece| + 2..] == rest;
      assert forall i | 0 <= i < |tail| :: tail[i] == pieces[i + 1];
      BlankSplitIsSplitBlank(tail, rest);
    }
  }

  // ---- The streaming parser ---------------------------------------------------------------

  lemma {:induction false} SplitAppend(s: string, t: string)
    ensures SplitBlank(s + t) == Complete(s) + SplitBlank(Tail(s) + t)
    decreases |s|
  {
    hide *;
    var i := FirstBlank(s);
    if i >= 0 {
      var rest := s[i + 2..];
      FirstBlankExtends(s, t);
      Slices(s, t, i);
      CutOne(s);
      CutText(s + t);
      SplitAppend(rest, t);
      Assoc([s[..i]], Complete(rest), SplitBlank(Tail(rest) + t));
    } else {
      Uncut(s);
      assert [] + SplitBlank(s + t) == SplitBlank(s + t);
    }
  }

  lemma Slices(s: string, t: string, i: nat)
    requires i + 2 <= |s|
    ensures (s + t)[i + 2..] == s[i + 2..] + t && (s + t)[..i] == s[..i]
  {}

  lemma Assoc<T>(a: seq<T>, b: seq<T>, c: seq<T>)
    ensures a + (b + c) == (a + b) + c
  {}

  lemma CutText(s: string)
    requires FirstBlank(s) >= 0
    ensures var i := FirstBlank(s); SplitBlank(s) == [s[..i]] + SplitBlank(s[i + 2..])
  {
    hide FirstBlank;
  }

  lemma CompleteAppend(s: string, t: string)
    ensures Complete(s + t) == Complete(s) + Complete(Tail(s) + t)
    ensures Tail(s + t) == Tail(Tail(s) + t)
  {
    hide SplitBlank;
    SplitAppend(s, t);
    InitAndLast(Complete(s), SplitBlank(Tail(s) + t));
  }

  lemma InitAndLast<T>(a: seq<T>, b: seq<T>)
    requires b != []
    ensures var c := a + b; c[..|c| - 1] == a + b[..|b| - 1] && c[|c| - 1] == b[|b| - 1]
  {}

  lemma {:induction false} EmitThroughAppend<T>(parse: string -> Option<T>, pieces: seq<string>, more: seq<string>)
    ensures EmitThrough(parse, pieces + more)
      == if AnyDone(pieces) then EmitThrough(parse, pieces) else EmitThrough(parse, pieces) + EmitThrough(parse, more)
  {
    hide *;
    NoPieces(parse);
    if pieces == [] {
      assert pieces + more == more;
      assert [] + EmitThrough(parse, more) == EmitThrough(parse, more);
    } else {
      var piece, rest := pieces[0], pieces[1..];
      assert pieces == [piece] + rest;
      Assoc([piece], rest, more);
      EmitThroughAppend(parse, rest, more);
      EmitThroughCons(parse, piece, rest);
      EmitThroughCons(parse, piece, rest + more);
      Assoc(Emit(parse, piece), EmitThrough(parse, rest), EmitThrough(parse, more));
    }
  }

  lemma NoPieces<T>(parse: string -> Option<T>)
    ensures EmitThrough(parse, []) == [] && !AnyDone([])
  {}

  lemma EmitThroughCons<T>(parse: string -> Option<T>, piece: string, rest: seq<string>)
    ensures EmitThrough(parse, [piece] + rest)
      == if Contains(piece, DONE) then Emit(parse, piece) else Emit(parse, piece) + EmitThrough(parse, rest)
    ensures AnyDone([piece] + rest) <==> Contains(piece, DONE) || AnyDone(rest)
  {
    hide Emit, Contains;
    var pieces := [piece] + rest;
    assert pieces[0] == piece && pieces[1..] == rest;
    assert forall p :: p in pieces <==> p == piece || p in rest;
    assert Emit(parse, piece) + [] == Emit(parse, piece);
  }

  lemma CutOne(s: string)
    requires FirstBlank(s) >= 0
    ensures var i := FirstBlank(s);
      Complete(s) == [s[..i]] + Complete(s[i + 2..]) && Tail(s) == Tail(s[i + 2..])
  {
    hide FirstBlank;
    var i := FirstBlank(s);
    CutText(s);
    hide SplitBlank;
    InitAndLast([s[..i]], SplitBlank(s[i + 2..]));
  }

  lemma Uncut(s: string)
    ensures FirstBlank(s) < 0 <==> Complete(s) == []
    ensures FirstBlank(s) < 0 ==> Tail(s) == s
    ensures FirstBlank(Tail(s)) < 0
    decreases |s|
  {
    hide FirstBlank;
    var i := FirstBlank(s);
    if i >= 0 {
      Uncut(s[i + 2..]);
    }
  }

  lemma EmitThroughNext<T>(parse: string -> Option<T>, cut: seq<string>, raw: string)
    requires !AnyDone(cut)
    ensures EmitThrough(parse, cut + [raw]) == EmitThrough(parse, cut) + Emit(parse, raw)
    ensures AnyDone(cut + [raw]) <==> Contains(raw, DONE)
  {
    assert forall p :: p in cut + [raw] <==> p in cut || p == raw;
    hide Emit, Contains, EmitThrough;
    EmitThroughAppend(parse, cut, [raw]);
    EmitThroughCons(parse, raw, []);
    NoPieces(parse);
    assert [raw] + [] == [raw] && Emit(parse, raw) + [] == Emit(parse, raw);
  }

  method ParseSseStream<T>(parse: string -> Option<T>, chunks: seq<Chunk>, abortedAtEnd: bool, flush: string)
    returns (yielded: seq<T>, outcome: Outcome)
    ensures (yielded, outcome) == Batch(parse, chunks, abortedAtEnd, flush)
  {
    hide *;
    var buffer, total := "", 0;
    yielded := [];
    StartOfStream(parse, chunks);
    for i := 0 to |chunks|
      invariant Admitted(chunks[..i]) && total == TotalBytes(chunks[..i])
      invariant buffer == Tail(TextOf(chunks[..i]))
      invariant !AnyDone(Complete(TextOf(chunks[..i])))
      invariant yielded == EmitThrough(parse, Complete(TextOf(chunks[..i])))
    {
      ghost var before, text := TextOf(chunks[..i]), TextOf(chunks[..i + 1]);
      NextChunk(chunks, i);
      if chunks[i].aborted {
        StopsAt(parse, chunks, abortedAtEnd, flush, i);
        return yielded, Cancelled;
      }
      if chunks[i].bytes > 0 {
        total := total + chunks[i].bytes;
        if total > MAX_STREAM_BYTES {
          StopsAt(parse, chunks, abortedAtEnd, flush, i);
          return yielded, TooLarge;
        }
        buffer := buffer + Unix(chunks[i].text);
      }
      assert buffer == Tail(before) + Contribution(chunks[i]);
      CompleteAppend(before, Contribution(chunks[i]));
      ghost var cut := Complete(before);
      var sep := FirstBlank(buffer);
      while sep >= 0
        invariant sep == FirstBlank(buffer)
        invariant Complete(text) == cut + Complete(buffer) && Tail(text) == Tail(buffer)
        invariant !AnyDone(cut) && yielded == EmitThrough(parse, cut)
        decreases |buffer|
      {
        var raw := buffer[..sep];
        CutOne(buffer);
        EmitThroughNext(parse, cut, raw);
        buffer := buffer[sep + 2..];
        cut := cut + [raw];
        yielded := yielded + Emit(parse, raw);
        if Contains(raw, DONE) {
          DoneStops(parse, chunks, abortedAtEnd, flush, i + 1, cut, Complete(buffer));
          return yielded, Finished;
        }
        sep := FirstBlank(buffer);
      }
      Uncut(buffer);
      assert cut + [] == cut;
    }
    assert chunks[..|chunks|] == chunks;
    EndOfStream(parse, chunks, abortedAtEnd, flush);
    if abortedAtEnd {
      return yielded, Cancelled;
    }
    yielded := yielded + EmitTail(parse, buffer + flush);
    outcome := Finished;
  }

  lemma StartOfStream<T>(parse: string -> Option<T>, chunks: seq<Chunk>)
    ensures Admitted(chunks[..0]) && TotalBytes(chunks[..0]) == 0
    ensures Complete(TextOf(chunks[..0])) == [] && Tail(TextOf(chunks[..0])) == ""
    ensures !AnyDone([]) && EmitThrough(parse, []) == []
  {
    hide Contains;
  }

  lemma NextChunk(chunks: seq<Chunk>, i: nat)
    requires i < |chunks| && Admitted(chunks[..i])
    ensures TextOf(chunks[..i + 1]) == TextOf(chunks[..i]) + Contribution(chunks[i])
    ensures TotalBytes(chunks[..i + 1]) == TotalBytes(chunks[..i]) + chunks[i].bytes
    ensures Admitted(chunks[..i + 1]) <==>
      !chunks[i].aborted && (chunks[i].bytes == 0 || TotalBytes(chunks[..i + 1]) <= MAX_STREAM_BYTES)
    ensures Contribution(chunks[i]) == if chunks[i].bytes > 0 then Unix(chunks[i].text) else ""
  {
    assert chunks[..i + 1] == chunks[..i] + [chunks[i]];
    ChunkAppended(chunks[..i], chunks[i]);
  }

  /** Taking in one more chunk. */
  lemma ChunkAppended(chunks: seq<Chunk>, last: Chunk)
    ensures TextOf(chunks + [last]) == TextOf(chunks) + Contribution(last)
    ensures TotalBytes(chunks + [last]) == TotalBytes(chunks) + last.bytes
    ensures Admitted(chunks + [last]) <==>
      (forall r | r in chunks :: !r.aborted) && !last.aborted && TotalBytes(chunks) + last.bytes <= MAX_STREAM_BYTES
  {
    hide Contribution;
    var longer := chunks + [last];
    assert longer[..|longer| - 1] == chunks && longer[|longer| - 1] == last;
    assert forall r :: r in longer <==> r in chunks || r == last;
  }

  lemma EndOfStream<T>(parse: string -> Option<T>, chunks: seq<Chunk>, abortedAtEnd: bool, flush: string)
    requires Admitted(chunks) && !AnyDone(Complete(TextOf(chunks)))
    ensures chunks[..|chunks|] == chunks
    ensures Batch(parse, chunks, abortedAtEnd, flush) ==
      var frames := EmitThrough(parse, Complete(TextOf(chunks)));
      if abortedAtEnd then (frames, Cancelled)
      else (frames + EmitTail(parse, Tail(TextOf(chunks)) + flush), Finished)
  {
    hide AnyDone;
    hide TextOf;
    assert chunks[..|chunks|] == chunks;
  }

  lemma ReadableIs(chunks: seq<Chunk>, i: nat)
    requires i < |chunks| && Admitted(chunks[..i]) && !Admitted(chunks[..i + 1])
    ensures Readable(chunks) == i
  {
    hide Readable;
    hide Admitted;
    var k := Readable(chunks);
    if k < i {
      AdmittedPrefix(chunks, k + 1, i);
    } else if i < k {
      AdmittedPrefix(chunks, i + 1, k);
    }
  }

  lemma StopsAt<T>(parse: string -> Option<T>, chunks: seq<Chunk>, abortedAtEnd: bool, flush: string, i: nat)
    requires i < |chunks| && Admitted(chunks[..i]) && !Admitted(chunks[..i + 1])
    requires !AnyDone(Complete(TextOf(chunks[..i])))
    ensures Batch(parse, chunks, abortedAtEnd, flush)
      == (EmitThrough(parse, Complete(TextOf(chunks[..i]))), if chunks[i].aborted then Cancelled else TooLarge)
  {
    hide AnyDone;
    hide TextOf;
    ReadableIs(chunks, i);
  }

  lemma {:induction false} AdmittedPrefix(chunks: seq<Chunk>, i: nat, k: nat)
    requires i <= k <= |chunks| && Admitted(chunks[..k])
    ensures Admitted(chunks[..i])
  {
    if i < k {
      assert chunks[..k][..k - 1] == chunks[..k - 1];
      AdmittedPrefix(chunks, i, k - 1);
    }
  }

  lemma TextNext(chunks: seq<Chunk>, i: nat)
    requires i < |chunks|
    ensures TextOf(chunks[..i + 1]) == TextOf(chunks[..i]) + Contribution(chunks[i])
  {
    assert chunks[..i + 1][..i] == chunks[..i];
  }

  lemma {:induction false} LaterChunksAppend(chunks: seq<Chunk>, i: nat, k: nat) returns (more: seq<string>)
    requires i <= k <= |chunks|
    ensures Complete(TextOf(chunks[..k])) == Complete(TextOf(chunks[..i])) + more
  {
    hide *;
    if i == k {
      more := [];
      assert Complete(TextOf(chunks[..k])) + [] == Complete(TextOf(chunks[..k]));
    } else {
      var before := LaterChunksAppend(chunks, i, k - 1);
      TextNext(chunks, k - 1);
      var s, t := TextOf(chunks[..k - 1]), Contribution(chunks[k - 1]);
      CompleteAppend(s, t);
      more := before + Complete(Tail(s) + t);
    }
  }

  /** A [DONE] among the pieces cut so far settles what the whole stream yields. */
  lemma DoneStops<T>(parse: string -> Option<T>, chunks: seq<Chunk>, abortedAtEnd: bool, flush: string,
                     i: nat, cut: seq<string>, uncut: seq<string>)
    requires i <= |chunks| && Admitted(chunks[..i]) && AnyDone(cut)
    requires Complete(TextOf(chunks[..i])) == cut + uncut
    ensures Batch(parse, chunks, abortedAtEnd, flush) == (EmitThrough(parse, cut), Finished)
  {
    hide Contains;
    hide Complete;
    hide TextOf;
    hide Admitted;
    hide EmitThrough;
    hide Readable;
    var k := Readable(chunks);
    if k < i {
      AdmittedPrefix(chunks, k + 1, i);
    }
    var more := LaterChunksAppend(chunks, i, k);
    assert Complete(TextOf(chunks[..k])) == cut + (uncut + more);
    EmitThroughAppend(parse, cut, uncut + more);
    var p :| p in cut && Contains(p, DONE);
    assert p in Complete(TextOf(chunks[..k]));
  }

  // ---- Chunks ------------------------------------------------------------------------------

  predicate SplitsCrlf(s: string, t: string) { s != "" && s[|s| - 1] == '\r' && t != "" && t[0] == '\n' }

  function Concat(texts: seq<string>): string {
    if texts == [] then "" else texts[0] + Concat(texts[1..])
  }

  function UnixAll(texts: seq<string>): string {
    if texts == [] then "" else Unix(texts[0]) + UnixAll(texts[1..])
  }

  /** No chunk boundary falls inside a CRLF. */
  predicate KeepsCrlf(texts: seq<string>) {
    texts == [] || (!SplitsCrlf(texts[0], Concat(texts[1..])) && KeepsCrlf(texts[1..]))
  }

  lemma {:induction false} UnixAppend(s: string, t: string)
    ensures if SplitsCrlf(s, t) then |Unix(s) + Unix(t)| > |Unix(s + t)| else Unix(s) + Unix(t) == Unix(s + t)
    decreases |s|
  {
    hide Unix;
    if s == "" {
      assert s + t == t && Unix("") == "" by {
        UnixEmpty();
      }
    } else if "\r\n" <= s {
      UnixAppend(s[2..], t);
      UnixCrlf(s[2..]);
      UnixCrlf(s[2..] + t);
      assert s == "\r\n" + s[2..] && s + t == "\r\n" + (s[2..] + t);
    } else if |s| == 1 && SplitsCrlf(s, t) {
      UnixOther(s[0], "");
      UnixOther(t[0], t[1..]);
      UnixCrlf(t[1..]);
      assert s + t == "\r\n" + t[1..] && t == [t[0]] + t[1..] && s == [s[0]] + "";
    } else {
      UnixAppend(s[1..], t);
      UnixOther(s[0], s[1..]);
      UnixOther(s[0], s[1..] + t);
      assert s == [s[0]] + s[1..] && s + t == [s[0]] + (s[1..] + t);
    }
  }

  /** Per-chunk newline conversion is whole-text conversion exactly when no CRLF is split. */
  lemma {:induction false} ChunkwiseNewlines(texts: seq<string>)
    ensures |UnixAll(texts)| >= |Unix(Concat(texts))|
    ensures UnixAll(texts) == Unix(Concat(texts)) <==> KeepsCrlf(texts)
  {
    if texts != [] {
      UnixAppend(texts[0], Concat(texts[1..]));
      ChunkwiseNewlines(texts[1..]);
      if UnixAll(texts) == Unix(Concat(texts)) {
        assert |UnixAll(texts[1..])| == |Unix(Concat(texts[1..]))|;
        SameLengthSameText(texts[1..]);
      }
    }
  }

  lemma {:induction false} SameLengthSameText(texts: seq<string>)
    ensures |UnixAll(texts)| >= |Unix(Concat(texts))|
    ensures |UnixAll(texts)| == |Unix(Concat(texts))| ==> UnixAll(texts) == Unix(Concat(texts))
  {
    if texts != [] {
      UnixAppend(texts[0], Concat(texts[1..]));
      SameLengthSameText(texts[1..]);
    }
  }

  function Texts(chunks: seq<Chunk>): (texts: seq<string>)
    ensures |texts| == |chunks|
  {
    seq(|chunks|, i requires 0 <= i < |chunks| => if chunks[i].bytes > 0 then chunks[i].text else "")
  }

  lemma {:induction false} UnixAllAppend(texts: seq<string>, last: string)
    ensures UnixAll(texts + [last]) == UnixAll(texts) + Unix(last)
  {
    if texts != [] {
      assert (texts + [last])[1..] == texts[1..] + [last];
      UnixAllAppend(texts[1..], last);
    } else {
      assert texts + [last] == [last] && [last][1..] == [];
    }
  }

  lemma {:induction false} TextOfIsUnixAll(chunks: seq<Chunk>)
    ensures TextOf(chunks) == UnixAll(Texts(chunks))
  {
    hide Unix, UnixAll;
    if chunks == [] {
      NoTexts();
    } else {
      var init, last := chunks[..|chunks| - 1], Texts(chunks)[|chunks| - 1];
      TextOfIsUnixAll(init);
      assert Texts(chunks) == Texts(init) + [last];
      UnixAllAppend(Texts(init), last);
      UnixEmpty();
    }
  }

  lemma NoTexts()
    ensures Texts([]) == [] && UnixAll([]) == ""
  {}

  /**
   * However the bytes are cut into chunks, the same text yields the same frames
   * in the same order, as long as no chunk boundary splits a CRLF.
   */
  lemma ChunkingDoesNotMatter<T>(parse: string -> Option<T>, chunks1: seq<Chunk>, chunks2: seq<Chunk>, flush: string)
    requires Admitted(chunks1) && Admitted(chunks2)
    requires KeepsCrlf(Texts(chunks1)) && KeepsCrlf(Texts(chunks2))
    requires Concat(Texts(chunks1)) == Concat(Texts(chunks2))
    ensures Batch(parse, chunks1, false, flush) == Batch(parse, chunks2, false, flush)
  {
    TextOfIsUnixAll(chunks1);
    TextOfIsUnixAll(chunks2);
    ChunkwiseNewlines(Texts(chunks1));
    ChunkwiseNewlines(Texts(chunks2));
    assert chunks1[..|chunks1|] == chunks1 && chunks2[..|chunks2|] == chunks2;
  }

  lemma UnixEmpty()
    ensures Unix("") == ""
  {}

  lemma UnixCrlf(t: string)
    ensures Unix("\r\n" + t) == "\n" + Unix(t)
  {
    assert ("\r\n" + t)[2..] == t;
  }

  lemma UnixOther(c: char, t: string)
    requires c != '\r' || t == "" || t[0] != '\n'
    ensures Unix([c] + t) == [c] + Unix(t)
  {
    var s := [c] + t;
    assert s[1..] == t && s[0] == c && (t != "" ==> s[1] == t[0]);
    assert !("\r\n" <= s) by {
      assert |s| < 2 || s[..2] != "\r\n" by {
        assert |s| >= 2 ==> s[..2] == [s[0], s[1]];
      }
    }
  }
}
