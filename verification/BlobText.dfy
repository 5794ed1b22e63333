/** Writing strings to a blob as newline-terminated UTF-8, and reading a blob back line by line from chunks. */
module BlobText {
  import opened Options
  import opened Utf8

  const NEWLINE: CodePoint := 10

  // ----- lines -----

  /** No line feed, U+000A. */
  predicate NewlineFree(t: Text) {
    forall k :: 0 <= k < |t| ==> t[k] != 0x0A
  }

  /** Where the first newline is, or the length if there is none. */
  function Break(t: Text): (k: nat)
    ensures k <= |t| && (k < |t| ==> t[k] == NEWLINE)
    ensures forall j :: 0 <= j < k ==> t[j] != NEWLINE
  {
    if t == [] || t[0] == NEWLINE then 0 else 1 + Break(t[1..])
  }

  /** The newline-terminated lines of a text. */
  function Complete(t: Text): seq<Text>
    decreases |t|
  {
    var k := Break(t);
    if k == |t| then [] else [t[..k]] + Complete(t[k + 1..])
  }

  /** What follows the last newline. */
  function Tail(t: Text): Text
    decreases |t|
  {
    var k := Break(t);
    if k == |t| then t else Tail(t[k + 1..])
  }

  /** The lines a reader of the whole text yields: an empty last piece is dropped. */
  function Lines(t: Text): seq<Text> {
    Complete(t) + if Tail(t) == [] then [] else [Tail(t)]
  }

  function Unlines(ls: seq<Text>): Text {
    if ls == [] then [] else ls[0] + [NEWLINE] + Unlines(ls[1..])
  }

  lemma BreakAt(a: Text, rest: Text)
    requires NewlineFree(a)
    ensures Break(a + [NEWLINE] + rest) == |a|
    ensures (a + [NEWLINE] + rest)[..|a|] == a && (a + [NEWLINE] + rest)[|a| + 1..] == rest
  {
    var t := a + [NEWLINE] + rest;
    assert t[|a|] == NEWLINE && forall k :: 0 <= k < |a| ==> t[k] == a[k];
  }

  predicate AllNewlineFree(ls: seq<Text>) {
    forall k :: 0 <= k < |ls| ==> NewlineFree(ls[k])
  }

  lemma {:induction false} LinesAreNewlineFree(t: Text)
    ensures NewlineFree(Tail(t)) && AllNewlineFree(Complete(t))
    decreases |t|
  {
    var k := Break(t);
    if k < |t| {
      LinesAreNewlineFree(t[k + 1..]);
    }
  }

  lemma SplitAt(t: Text, k: nat)
    requires k < |t| && t[k] == NEWLINE
    ensures t == t[..k] + [NEWLINE] + t[k + 1..]
  {
  }

  /** Lines split a text without losing anything: joined again they are the text, up to a final newline. */
  lemma {:induction false} LinesLoseNothing(t: Text)
    ensures t == Unlines(Complete(t)) + Tail(t)
    decreases |t|
  {
    var k := Break(t);
    if k < |t| {
      var line, rest := t[..k], t[k + 1..];
      LinesLoseNothing(rest);
      FirstLineOf(t, k);
      UnlinesFront(line, Complete(rest));
      SplitAt(t, k);
      SeqAssoc(line + [NEWLINE], Unlines(Complete(rest)), Tail(rest));
    }
  }

  lemma UnlinesFront(line: Text, ls: seq<Text>)
    ensures Unlines([line] + ls) == line + [NEWLINE] + Unlines(ls)
  {
    assert ([line] + ls)[1..] == ls;
  }

  lemma {:induction false} CompleteOfUnlines(ls: seq<Text>)
    requires AllNewlineFree(ls)
    ensures Complete(Unlines(ls)) == ls && Tail(Unlines(ls)) == []
  {
    if ls != [] {
      BreakAt(ls[0], Unlines(ls[1..]));
      CompleteOfUnlines(ls[1..]);
    }
  }

  /** Strings written one per line come back as they were exactly when none contains a newline. */
  lemma LinesOfUnlines(ls: seq<Text>)
    ensures Lines(Unlines(ls)) == ls <==> AllNewlineFree(ls)
  {
    var t := Unlines(ls);
    if AllNewlineFree(ls) {
      CompleteOfUnlines(ls);
    }
    LinesAreNewlineFree(t);
    assert AllNewlineFree(Lines(t));
  }

  lemma FirstLine(line: Text, rest: Text)
    requires NewlineFree(line)
    ensures Complete(line + [NEWLINE] + rest) == [line] + Complete(rest)
    ensures Tail(line + [NEWLINE] + rest) == Tail(rest)
  {
    BreakAt(line, rest);
  }

  /** Splitting can be resumed: what is left over from one text is the start of the next. */
  lemma {:induction false} SplitAppend(a: Text, b: Text)
    ensures Complete(a + b) == Complete(a) + Complete(Tail(a) + b)
    ensures Tail(a + b) == Tail(Tail(a) + b)
    decreases |a|
  {
    var k := Break(a);
    if k < |a| {
      var line, rest := a[..k], a[k + 1..];
      FirstLineOf(a, k);
      SplitAppend(rest, b);
      calc {
        Complete(a + b);
        { LineThenMore(a, b, k); }
        [line] + Complete(rest + b);
        [line] + (Complete(rest) + Complete(Tail(rest) + b));
        { SeqAssoc([line], Complete(rest), Complete(Tail(rest) + b)); }
        Complete(a) + Complete(Tail(a) + b);
      }
      LineThenMore(a, b, k);
    }
  }

  lemma FirstLineOf(a: Text, k: nat)
    requires k < |a| && a[k] == NEWLINE && forall j :: 0 <= j < k ==> a[j] != NEWLINE
    ensures Complete(a) == [a[..k]] + Complete(a[k + 1..])
    ensures Tail(a) == Tail(a[k + 1..])
  {
    assert Break(a) == k;
  }

  lemma LineThenMore(a: Text, b: Text, k: nat)
    requires k == Break(a) < |a|
    ensures Complete(a + b) == [a[..k]] + Complete(a[k + 1..] + b) && Tail(a + b) == Tail(a[k + 1..] + b)
  {
    assert a + b == a[..k] + [NEWLINE] + (a[k + 1..] + b);
    FirstLine(a[..k], a[k + 1..] + b);
  }

  lemma SeqAssoc<T>(a: seq<T>, b: seq<T>, c: seq<T>)
    ensures a + (b + c) == (a + b) + c
  {
  }

  // ----- reading -----

  function Concat(chunks: seq<Bytes>): Bytes {
    if chunks == [] then [] else Concat(chunks[..|chunks| - 1]) + chunks[|chunks| - 1]
  }

  /** Reading the whole blob at once: decode, then split. */
  function ReadWhole(b: Bytes): Option<seq<Text>> {
    match Decode(b)
    case None => None
    case Some(t) => Some(Lines(t))
  }

  /** The inner loop: move every complete line out of the buffer. */
  method TakeLines(start: seq<Text>, text: Text) returns (lines: seq<Text>, buffer: Text)
    ensures lines == start + Complete(text) && buffer == Tail(text)
  {
    lines, buffer := start, text;
    while Break(buffer) < |buffer|
      invariant lines + Complete(buffer) == start + Complete(text) && Tail(buffer) == Tail(text)
      decreases |buffer|
    {
      var k := Break(buffer);
      FirstLineOf(buffer, k);
      SeqAssoc(lines, [buffer[..k]], Complete(buffer[k + 1..]));
      lines, buffer := lines + [buffer[..k]], buffer[k + 1..];
    }
  }

  /** Decoding got through `n` chunks and not through the next one, or not through the final check. */
  ghost predicate FailsAfter(chunks: seq<Bytes>, n: nat) {
    && n <= |chunks| && Feed(Concat(chunks[..n])).Text?
    && (n < |chunks| ==> Feed(Concat(chunks[..n + 1])).Error?)
  }

  /** The lines completed by the first `n` chunks. */
  ghost predicate YieldedBy(chunks: seq<Bytes>, n: nat, lines: seq<Text>) {
    FailsAfter(chunks, n) && lines == Complete(Feed(Concat(chunks[..n])).text)
  }

  /**
    The chunked reader. However the bytes are cut, inside a character or not, it yields the lines of
    the whole decoded text, and it fails exactly when the bytes as a whole are not UTF-8. By then it
    has yielded the lines completed before the chunk that does not decode.
   */
  method StreamFile(chunks: seq<Bytes>) returns (lines: seq<Text>, failed: bool)
    ensures failed <==> ReadWhole(Concat(chunks)).None?
    ensures !failed ==> Some(lines) == ReadWhole(Concat(chunks))
    ensures failed ==> exists n: nat :: YieldedBy(chunks, n, lines)
  {
    var held: Bytes, buffer: Text := [], [];
    lines := [];
    var n := 0;
    ghost var text: Text := [];
    while n < |chunks|
      invariant 0 <= n <= |chunks|
      invariant Feed(Concat(chunks[..n])) == Fed.Text(text, held)
      invariant lines == Complete(text) && buffer == Tail(text)
    {
      var fed := Feed(held + chunks[n]);
      NextChunk(chunks, n);
      if fed.Error? {
        LaterError(chunks, n + 1);
        assert YieldedBy(chunks, n, lines);
        return lines, true;
      }
      SplitAppend(text, fed.text);
      held := fed.rest;
      lines, buffer := TakeLines(lines, buffer + fed.text);
      text := text + fed.text;
      n := n + 1;
    }
    assert chunks[..n] == chunks;
    FeedDecodes(Concat(chunks));
    failed := held != [];
    assert failed ==> YieldedBy(chunks, n, lines);
    assert Complete(text) + [] == Complete(text);
    if !failed && buffer != [] {
      lines := lines + [buffer];
    }
  }

  /** Feeding one more chunk to what is held back. */
  lemma NextChunk(chunks: seq<Bytes>, n: nat)
    requires n < |chunks| && Feed(Concat(chunks[..n])).Text?
    ensures var f := Feed(Concat(chunks[..n]));
            Feed(Concat(chunks[..n + 1])) == Prepend(f.text, Feed(f.rest + chunks[n]))
  {
    assert chunks[..n + 1][..n] == chunks[..n];
    FeedAppend(Concat(chunks[..n]), chunks[n]);
  }

  lemma {:induction false} LaterError(chunks: seq<Bytes>, n: nat)
    requires n <= |chunks| && Feed(Concat(chunks[..n])).Error?
    ensures ReadWhole(Concat(chunks)).None?
    decreases |chunks| - n
  {
    if n == |chunks| {
      assert chunks[..n] == chunks;
      FeedDecodes(Concat(chunks));
    } else {
      assert chunks[..n + 1][..n] == chunks[..n];
      FeedAppend(Concat(chunks[..n]), chunks[n]);
      LaterError(chunks, n + 1);
    }
  }

  // ----- writing -----

  /** What a stream function may return: a string or, nested to any depth, a list. */
  datatype Streamable = Str(s: Text) | List(items: seq<Streamable>)

  function ToStr(data: Streamable): Text {
    match data
    case Str(s) => s + [NEWLINE]
    case List(items) => ToStrs(items)
  }

  function ToStrs(items: seq<Streamable>): Text {
    if items == [] then [] else ToStr(items[0]) + ToStrs(items[1..])
  }

  /** The strings in order, lists flattened. */
  function Strings(data: Streamable): seq<Text> {
    match data
    case Str(s) => [s]
    case List(items) => AllStrings(items)
  }

  function AllStrings(items: seq<Streamable>): seq<Text> {
    if items == [] then [] else Strings(items[0]) + AllStrings(items[1..])
  }

  lemma {:induction false} UnlinesAppend(a: seq<Text>, b: seq<Text>)
    ensures Unlines(a + b) == Unlines(a) + Unlines(b)
  {
    if a == [] {
      assert a + b == b;
    } else {
      var front := a[0] + [NEWLINE];
      calc {
        Unlines(a + b);
        { assert a + b == [a[0]] + (a[1..] + b); UnlinesFront(a[0], a[1..] + b); }
        front + Unlines(a[1..] + b);
        { UnlinesAppend(a[1..], b); }
        front + (Unlines(a[1..]) + Unlines(b));
        { SeqAssoc(front, Unlines(a[1..]), Unlines(b)); }
        Unlines(a) + Unlines(b);
      }
    }
  }

  lemma {:induction false} ToStrIsUnlines(data: Streamable)
    ensures ToStr(data) == Unlines(Strings(data))
  {
    match data
    case Str(s) => assert Unlines([s][1..]) == [];
    case List(items) => ToStrsIsUnlines(items);
  }

  lemma {:induction false} ToStrsIsUnlines(items: seq<Streamable>)
    ensures ToStrs(items) == Unlines(AllStrings(items))
  {
    if items != [] {
      ToStrIsUnlines(items[0]);
      ToStrsIsUnlines(items[1..]);
      UnlinesAppend(Strings(items[0]), AllStrings(items[1..]));
    }
  }

  /** The upload loop: one encoded chunk per item; a string with a lone surrogate raises. */
  method Stream(items: seq<Streamable>) returns (chunks: seq<Bytes>, failed: bool)
    ensures failed <==> Encode(Unlines(AllStrings(items))).None?
    ensures !failed ==> Encode(Unlines(AllStrings(items))) == Some(Concat(chunks))
  {
    chunks := [];
    var n := 0;
    ToStrsIsUnlines(items);
    while n < |items|
      invariant 0 <= n <= |items|
      invariant Scalars(ToStrs(items[..n])) && Concat(chunks) == EncodeScalars(ToStrs(items[..n]))
    {
      ToStrsNext(items, n);
      match Encode(ToStr(items[n])) {
        case None =>
          ToStrsRest(items, n + 1);
          SurrogateStays(ToStrs(items[..n]), ToStr(items[n]), ToStrs(items[n + 1..]));
          return chunks, true;
        case Some(b) =>
          EncodeAppend(ToStrs(items[..n]), ToStr(items[n]));
          assert (chunks + [b])[..|chunks|] == chunks;
          chunks := chunks + [b];
      }
      n := n + 1;
    }
    assert items[..n] == items;
    failed := false;
  }

  lemma SurrogateStays(a: Text, b: Text, c: Text)
    requires !Scalars(b)
    ensures !Scalars(a + b + c)
  {
    var k :| 0 <= k < |b| && !Scalar(b[k]);
    assert (a + b + c)[|a| + k] == b[k];
  }

  lemma {:induction false} EncodeAppend(a: Text, b: Text)
    ensures EncodeScalars(a + b) == EncodeScalars(a) + EncodeScalars(b)
  {
    if a == [] {
      assert a + b == b;
    } else {
      var front := EncodeChar(a[0]);
      calc {
        EncodeScalars(a + b);
        { assert a + b == [a[0]] + (a[1..] + b); EncodeFront(a[0], a[1..] + b); }
        front + EncodeScalars(a[1..] + b);
        { EncodeAppend(a[1..], b); }
        front + (EncodeScalars(a[1..]) + EncodeScalars(b));
        { SeqAssoc(front, EncodeScalars(a[1..]), EncodeScalars(b)); }
        EncodeScalars(a) + EncodeScalars(b);
      }
    }
  }

  lemma ToStrsFront(data: Streamable, rest: seq<Streamable>)
    ensures ToStrs([data] + rest) == ToStr(data) + ToStrs(rest)
  {
    assert ([data] + rest)[1..] == rest;
  }

  lemma {:induction false} ToStrsAppend(a: seq<Streamable>, b: seq<Streamable>)
    ensures ToStrs(a + b) == ToStrs(a) + ToStrs(b)
  {
    if a == [] {
      assert a + b == b;
    } else {
      var front := ToStr(a[0]);
      calc {
        ToStrs(a + b);
        { assert a + b == [a[0]] + (a[1..] + b); ToStrsFront(a[0], a[1..] + b); }
        front + ToStrs(a[1..] + b);
        { ToStrsAppend(a[1..], b); }
        front + (ToStrs(a[1..]) + ToStrs(b));
        { SeqAssoc(front, ToStrs(a[1..]), ToStrs(b)); }
        ToStrs(a) + ToStrs(b);
      }
    }
  }

  lemma ToStrsNext(items: seq<Streamable>, n: nat)
    requires n < |items|
    ensures ToStrs(items[..n + 1]) == ToStrs(items[..n]) + ToStr(items[n])
  {
    calc {
      ToStrs(items[..n + 1]);
      { assert items[..n + 1] == items[..n] + [items[n]]; ToStrsAppend(items[..n], [items[n]]); }
      ToStrs(items[..n]) + ToStrs([items[n]]);
      { assert [items[n]] + [] == [items[n]]; ToStrsFront(items[n], []); }
      ToStrs(items[..n]) + ToStr(items[n]);
    }
  }

  lemma ToStrsRest(items: seq<Streamable>, n: nat)
    requires n <= |items|
    ensures ToStrs(items) == ToStrs(items[..n]) + ToStrs(items[n..])
  {
    assert items == items[..n] + items[n..];
    ToStrsAppend(items[..n], items[n..]);
  }

  /**
    What was streamed out is read back unchanged, empty strings included, however the stored bytes are
    cut into chunks on the way in; a string holding a newline is the only thing that can spoil it.
   */
  lemma WrittenIsReadBack(items: seq<Streamable>, stored: Bytes)
    requires Encode(Unlines(AllStrings(items))) == Some(stored)
    ensures ReadWhole(stored) == Some(AllStrings(items)) <==> AllNewlineFree(AllStrings(items))
  {
    RoundTrip(stored, Unlines(AllStrings(items)));
    LinesOfUnlines(AllStrings(items));
  }
}
