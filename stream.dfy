/**
 * The chunked reading of src/App.jsx, as a specification: the text that has
 * arrived is split on newlines, the unterminated tail is held back in
 * `partialText` until the next chunk, and only complete lines go through the
 * same line classifier as the worker.
 */
module Stream {
  import opened JsString
  import opened M3u

  /** `partialText` and the classifier's variables between two reads. */
  datatype Reader = Reader(partial: string, state: ParseState)

  const Fresh := Reader("", Start)

  /** The text delivered by the chunks, in order. */
  function Concat(chunks: seq<string>): string {
    if chunks == [] then "" else Concat(chunks[..|chunks| - 1]) + chunks[|chunks| - 1]
  }

  /** One read: append the chunk, split, keep the last piece back, classify the others. */
  function Receive(r: Reader, chunk: string): Reader {
    var text := r.partial + chunk;
    Reader(LastPiece(text, '\n'), RunFrom(r.state, CompletePieces(text, '\n')))
  }

  /** The reader after the given chunks. */
  function Received(chunks: seq<string>): Reader {
    if chunks == [] then Fresh else Receive(Received(chunks[..|chunks| - 1]), chunks[|chunks| - 1])
  }

  /**
   * Whatever the split points: the held-back text is what follows the last
   * newline of everything delivered, and the classifier's state is the
   * whole-text parse of the newline-terminated lines.
   */
  lemma {:induction false} ReceivedIsWholeParse(chunks: seq<string>)
    ensures Received(chunks).partial == LastPiece(Concat(chunks), '\n')
    ensures Received(chunks).state == ParseLines(CompletePieces(Concat(chunks), '\n'))
  {
    if chunks == [] {
      assert Split("", '\n') == [""];
    } else {
      var init := chunks[..|chunks| - 1];
      var c := chunks[|chunks| - 1];
      var t := Concat(init);
      ReceivedIsWholeParse(init);
      SplitAppend(t, c, '\n');
      RunFromAppend(Start, CompletePieces(t, '\n'), CompletePieces(LastPiece(t, '\n') + c, '\n'));
    }
  }

  /** Two chunkings of the same text leave the reader in the same state. */
  lemma ChunkingInvariance(a: seq<string>, b: seq<string>)
    requires Concat(a) == Concat(b)
    ensures Received(a) == Received(b)
  {
    ReceivedIsWholeParse(a);
    ReceivedIsWholeParse(b);
  }

  /**
   * The worker parses one more line than the stream: the held-back tail. The
   * stream stops on `done` without classifying `partialText`.
   */
  lemma WorkerSeesTail(chunks: seq<string>)
    ensures ParseLines(Split(Concat(chunks), '\n')) == Step(Received(chunks).state, Received(chunks).partial)
  {
    var t := Concat(chunks);
    var p := Split(t, '\n');
    ReceivedIsWholeParse(chunks);
    assert p == CompletePieces(t, '\n') + [LastPiece(t, '\n')];
    RunFromAppend(Start, CompletePieces(t, '\n'), [LastPiece(t, '\n')]);
    assert [LastPiece(t, '\n')][..0] == [];
  }

  /** For text that ends with a newline (or is empty), the stream finds exactly the worker's channels. */
  lemma StreamMatchesWorker(chunks: seq<string>)
    requires Concat(chunks) == [] || Concat(chunks)[|Concat(chunks)| - 1] == '\n'
    ensures Received(chunks).state.channels == ParseLines(Split(Concat(chunks), '\n')).channels
    ensures Received(chunks).partial == ""
  {
    var t := Concat(chunks);
    ReceivedIsWholeParse(chunks);
    if t != [] {
      LastPieceAfterFinalSep(t, '\n');
    } else {
      assert Split(t, '\n') == [""];
    }
    WorkerSeesTail(chunks);
    assert Trim("") == "";
  }

  /**
   * An unterminated URL line that would complete the pending entry is never
   * classified: the worker emits one channel more than the stream.
   */
  lemma UnterminatedUrlDropped(chunks: seq<string>)
    requires Received(chunks).state.current.Some?
    requires IsUrlLine(Received(chunks).partial)
    ensures |ParseLines(Split(Concat(chunks), '\n')).channels| == |Received(chunks).state.channels| + 1
  {
    WorkerSeesTail(chunks);
    StepByKind(Received(chunks).state, Received(chunks).partial);
  }
}
