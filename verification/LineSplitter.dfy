/** The streaming line splitter of build_diagnostics.c: bytes go into a 2048-byte buffer that
    is handed to the line parser at every newline and whenever a line overflows it. */
module LineSplitter {

  const BUFFER_SIZE: nat := 2048
  const MAX_PIECE: nat := BUFFER_SIZE - 1

  /** The pieces handed to the parser so far, and the bytes still in the buffer. */
  datatype State = State(pieces: seq<string>, residue: string)

  const EMPTY := State([], [])

  /** An overlong line is handed over before the next byte is stored. */
  function Flushed(st: State): State {
    if |st.residue| + 1 >= BUFFER_SIZE then State(st.pieces + [st.residue], []) else st
  }

  function Stored(st: State, ch: char): State {
    if ch == '\n' then State(st.pieces + [st.residue + [ch]], []) else State(st.pieces, st.residue + [ch])
  }

  function FedByte(st: State, ch: char): State {
    Stored(Flushed(st), ch)
  }

  function Fed(st: State, data: string): State {
    if data == [] then st else FedByte(Fed(st, data[..|data| - 1]), data[|data| - 1])
  }

  function Flatten(pieces: seq<string>): string {
    if pieces == [] then [] else Flatten(pieces[..|pieces| - 1]) + pieces[|pieces| - 1]
  }

  predicate NewlineFree(s: string) {
    '\n' !in s
  }

  /** A whole line that fits the buffer, or exactly 2047 bytes of a longer one. */
  predicate WellCut(piece: string) {
    if |piece| == MAX_PIECE && NewlineFree(piece) then true
    else 0 < |piece| <= MAX_PIECE && piece[|piece| - 1] == '\n' && NewlineFree(piece[..|piece| - 1])
  }

  /** The state's pieces and residue put back together, well cut. */
  ghost predicate Conserves(st: State, stream: string) {
    && Flatten(st.pieces) + st.residue == stream
    && (forall i :: 0 <= i < |st.pieces| ==> WellCut(st.pieces[i]))
    && NewlineFree(st.residue)
  }

  /** A correct cutting of `stream`. An overlong line is cut only when its next byte has come. */
  ghost predicate Cuts(st: State, stream: string) {
    && Conserves(st, stream)
    && |st.residue| <= MAX_PIECE
    && (st.pieces != [] && NewlineFree(st.pieces[|st.pieces| - 1]) ==> st.residue != [])
  }

  lemma FlattenAppend(pieces: seq<string>, piece: string)
    ensures Flatten(pieces + [piece]) == Flatten(pieces) + piece
  {
    assert (pieces + [piece])[..|pieces|] == pieces;
  }

  lemma FlushedConserves(st: State, stream: string)
    requires Cuts(st, stream)
    ensures Conserves(Flushed(st), stream) && |Flushed(st).residue| < MAX_PIECE
  {
    FlattenAppend(st.pieces, st.residue);
  }

  lemma StoredCuts(st: State, stream: string, ch: char)
    requires Conserves(st, stream) && |st.residue| < MAX_PIECE
    ensures Cuts(Stored(st, ch), stream + [ch])
  {
    var grown := st.residue + [ch];
    FlattenAppend(st.pieces, grown);
    assert grown[..|grown| - 1] == st.residue;
    assert Flatten(st.pieces) + grown == stream + [ch];
  }

  /** Nothing is lost, invented or reordered, every piece is well cut, the residue fits. */
  lemma {:induction false} FedCuts(data: string)
    ensures Cuts(Fed(EMPTY, data), data)
  {
    if data != [] {
      var front := data[..|data| - 1];
      FedCuts(front);
      FlushedConserves(Fed(EMPTY, front), front);
      StoredCuts(Flushed(Fed(EMPTY, front)), front, data[|data| - 1]);
      assert front + [data[|data| - 1]] == data;
    }
  }

  /** The same in numbers: a piece is a whole line of at most 2047 bytes, newline included, or
      2047 bytes of a longer one. */
  lemma PiecesInNumbers(data: string, i: nat)
    requires i < |Fed(EMPTY, data).pieces|
    ensures |Fed(EMPTY, data).residue| <= 2047
    ensures var piece := Fed(EMPTY, data).pieces[i];
            if '\n' in piece then |piece| <= 2047 && '\n' !in piece[..|piece| - 1] else |piece| == 2047
  {
    FedCuts(data);
    assert WellCut(Fed(EMPTY, data).pieces[i]);
  }

  /** The line the last byte went into, open again and without that byte. */
  function Unstored(st: State): State
    requires st.residue != [] || (st.pieces != [] && st.pieces[|st.pieces| - 1] != [])
  {
    if st.residue != [] then State(st.pieces, st.residue[..|st.residue| - 1])
    else
      var last := st.pieces[|st.pieces| - 1];
      State(st.pieces[..|st.pieces| - 1], last[..|last| - 1])
  }

  function Unflushed(st: State): State {
    if st.residue == [] && st.pieces != [] && NewlineFree(st.pieces[|st.pieces| - 1])
    then State(st.pieces[..|st.pieces| - 1], st.pieces[|st.pieces| - 1])
    else st
  }

  lemma UnflushedCuts(st: State, stream: string)
    requires Conserves(st, stream) && |st.residue| < MAX_PIECE
    ensures Cuts(Unflushed(st), stream) && Flushed(Unflushed(st)) == st
  {
    if Unflushed(st) != st {
      assert st.pieces == st.pieces[..|st.pieces| - 1] + [st.pieces[|st.pieces| - 1]];
      var before := Unflushed(st);
      assert WellCut(before.residue);
      if before.pieces != [] {
        assert before.pieces[|before.pieces| - 1] == st.pieces[|st.pieces| - 2];
      }
    }
  }

  lemma DropLastByte(a: string, line: string, stream: string, ch: char)
    requires a + line == stream + [ch] && line != []
    ensures line[|line| - 1] == ch && a + line[..|line| - 1] == stream
  {
    assert (a + line)[|stream|] == ch;
    assert (a + line)[..|stream|] == a + line[..|line| - 1];
    assert (stream + [ch])[..|stream|] == stream;
  }

  lemma UnstoredConserves(st: State, stream: string, ch: char)
    requires Cuts(st, stream + [ch])
    ensures st.residue != [] || (st.pieces != [] && st.pieces[|st.pieces| - 1] != [])
    ensures Conserves(Unstored(st), stream) && |Unstored(st).residue| < MAX_PIECE && Stored(Unstored(st), ch) == st
  {
    if st.residue != [] {
      DropLastByte(Flatten(st.pieces), st.residue, stream, ch);
      assert st.residue[..|st.residue| - 1] + [ch] == st.residue;
    } else {
      assert |Flatten(st.pieces)| == |stream| + 1;
      var front, last := st.pieces[..|st.pieces| - 1], st.pieces[|st.pieces| - 1];
      assert WellCut(last) && !NewlineFree(last);
      DropLastByte(Flatten(front), last, stream, ch);
      assert last[..|last| - 1] + [ch] == last;
      assert front + [last] == st.pieces;
    }
  }

  lemma PiecesHoldBytes(st: State, stream: string)
    requires Cuts(st, stream)
    ensures st.pieces != [] ==> stream != []
  {
    if st.pieces != [] {
      assert WellCut(st.pieces[|st.pieces| - 1]);
    }
  }

  /** The cutting is the only one: any pieces and residue that satisfy `Cuts` are what the
      byte loop produces. */
  lemma {:induction false} CuttingIsUnique(st: State, stream: string)
    requires Cuts(st, stream)
    ensures st == Fed(EMPTY, stream)
    decreases |stream|
  {
    if stream == [] {
      PiecesHoldBytes(st, stream);
    } else {
      var front, ch := stream[..|stream| - 1], stream[|stream| - 1];
      assert front + [ch] == stream;
      UnstoredConserves(st, front, ch);
      UnflushedCuts(Unstored(st), front);
      CuttingIsUnique(Unflushed(Unstored(st)), front);
    }
  }

  /** Chunk boundaries do not matter. */
  lemma {:induction false} FedInChunks(st: State, a: string, b: string)
    ensures Fed(st, a + b) == Fed(Fed(st, a), b)
  {
    if b == [] {
      assert a + b == a;
    } else {
      assert (a + b)[..|a + b| - 1] == a + b[..|b| - 1];
      FedInChunks(st, a, b[..|b| - 1]);
    }
  }

  function FedAll(st: State, chunks: seq<string>): State
    decreases chunks
  {
    if chunks == [] then st else FedAll(Fed(st, chunks[0]), chunks[1..])
  }

  function Joined(chunks: seq<string>): string {
    if chunks == [] then [] else chunks[0] + Joined(chunks[1..])
  }

  /** Any two ways of cutting the same stream into chunks end in the same state. */
  lemma {:induction false} ChunkingIsIrrelevant(st: State, chunks: seq<string>)
    ensures FedAll(st, chunks) == Fed(st, Joined(chunks))
    decreases chunks
  {
    if chunks != [] {
      ChunkingIsIrrelevant(Fed(st, chunks[0]), chunks[1..]);
      FedInChunks(st, chunks[0], Joined(chunks[1..]));
    }
  }

  // ---------------------------------------------------------------------------------------

  class Splitter {
    const lineBuffer: array<char>
    var lineLen: nat
    var handed: seq<string>  // the calls made to the line parser

    ghost predicate Valid()
      reads this
    {
      lineBuffer.Length == BUFFER_SIZE && lineLen <= MAX_PIECE
    }

    function Value(): State
      requires lineLen <= lineBuffer.Length
      reads this, lineBuffer
    {
      State(handed, lineBuffer[..lineLen])
    }

    constructor ()
      ensures Valid() && Value() == EMPTY && fresh(lineBuffer)
    {
      lineBuffer := new char[BUFFER_SIZE](_ => '\0');
      lineLen, handed := 0, [];
    }

    /** `build_diagnostics_clear`. */
    method Clear()
      requires Valid()
      modifies this, lineBuffer
      ensures Valid() && Value() == EMPTY
    {
      lineLen, handed := 0, [];
      lineBuffer[0] := '\0';
    }

    method FeedByte(ch: char)
      requires Valid()
      modifies this, lineBuffer
      ensures Valid() && Value() == FedByte(old(Value()), ch)
    {
      if lineLen + 1 >= lineBuffer.Length {
        handed := handed + [lineBuffer[..lineLen]];
        lineLen := 0;
      }
      lineBuffer[lineLen] := ch;
      lineLen := lineLen + 1;
      assert lineBuffer[..lineLen] == Flushed(old(Value())).residue + [ch];
      if ch == '\n' {
        handed := handed + [lineBuffer[..lineLen]];
        lineLen := 0;
      }
    }

    /** `build_diagnostics_feed_chunk`. */
    method FeedChunk(data: string)
      requires Valid()
      modifies this, lineBuffer
      ensures Valid() && Value() == Fed(old(Value()), data)
    {
      var i := 0;
      while i < |data|
        invariant i <= |data| && Valid()
        invariant Value() == Fed(old(Value()), data[..i])
      {
        assert data[..i + 1][..i] == data[..i];
        FeedByte(data[i]);
        i := i + 1;
      }
      assert data[..i] == data;
    }
  }
}
