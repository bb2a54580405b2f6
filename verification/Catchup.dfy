/** Splitting a catch-up range into chunks, limited in operations and in bytes. */
module Catchup {
  import opened Operations

  /** One row of the log, with the length of its encoding. */
  datatype Row = Row(seqno: nat, op: Op, size: nat)

  datatype Chunk = Chunk(throughSeq: nat, ops: seq<Op>)

  const CHUNK_MAX_OPS: nat := 256
  const CHUNK_MAX_BYTES: nat := 64 * 1024

  function Bytes(rows: seq<Row>): nat {
    if rows == [] then 0 else Bytes(rows[..|rows| - 1]) + rows[|rows| - 1].size
  }

  /** A piece may be sent as one chunk; an operation over the byte limit travels alone. */
  predicate Fits(piece: seq<Row>) {
    piece != [] && |piece| <= CHUNK_MAX_OPS && (|piece| == 1 || Bytes(piece) <= CHUNK_MAX_BYTES)
  }

  function ChunkOf(piece: seq<Row>): Chunk
    requires piece != []
  {
    Chunk(piece[|piece| - 1].seqno, seq(|piece|, i requires 0 <= i < |piece| => piece[i].op))
  }

  /** How far the chunk that starts with the first `n` rows of `rows` goes on. */
  function Reach(rows: seq<Row>, n: nat): (r: nat)
    requires n <= |rows|
    ensures n <= r <= |rows|
    decreases |rows| - n
  {
    if n == |rows| || n >= CHUNK_MAX_OPS || Bytes(rows[..n]) + rows[n].size > CHUNK_MAX_BYTES then n
    else Reach(rows, n + 1)
  }

  function Pieces(rows: seq<Row>): seq<seq<Row>>
    decreases |rows|
  {
    if rows == [] then [] else [rows[..Reach(rows, 1)]] + Pieces(rows[Reach(rows, 1)..])
  }

  function Joined(pieces: seq<seq<Row>>): seq<Row> {
    if pieces == [] then [] else pieces[0] + Joined(pieces[1..])
  }

  function ChunksOf(pieces: seq<seq<Row>>): (cs: seq<Chunk>)
    requires forall p :: p in pieces ==> p != []
    ensures |cs| == |pieces|
  {
    if pieces == [] then []
    else
      assert pieces[0] in pieces;
      assert forall p :: p in pieces[1..] ==> p in pieces;
      [ChunkOf(pieces[0])] + ChunksOf(pieces[1..])
  }

  function Greedy(rows: seq<Row>): seq<Chunk>
    decreases |rows|
  {
    if rows == [] then [] else [ChunkOf(rows[..Reach(rows, 1)])] + Greedy(rows[Reach(rows, 1)..])
  }

  /** `pieces` splits `rows` into pieces that may each be sent. */
  predicate Split(pieces: seq<seq<Row>>, rows: seq<Row>) {
    Joined(pieces) == rows && forall p :: p in pieces ==> Fits(p)
  }

  lemma BytesMore(rows: seq<Row>, n: nat)
    requires n < |rows|
    ensures Bytes(rows[..n + 1]) == Bytes(rows[..n]) + rows[n].size
  {
    assert rows[..n + 1][..n] == rows[..n];
  }

  lemma {:induction false} ReachFits(rows: seq<Row>, n: nat)
    requires 0 < n <= |rows| && Fits(rows[..n])
    ensures Fits(rows[..Reach(rows, n)])
    decreases |rows| - n
  {
    if Reach(rows, n) > n {
      BytesMore(rows, n);
      ReachFits(rows, n + 1);
    }
  }

  lemma SplitCons(p: seq<Row>, pieces: seq<seq<Row>>, rest: seq<Row>)
    requires Fits(p) && Split(pieces, rest)
    ensures Split([p] + pieces, p + rest)
  {
    hide Fits;
    assert ([p] + pieces)[1..] == pieces;
  }

  lemma {:induction false} PiecesSplit(rows: seq<Row>)
    ensures Split(Pieces(rows), rows)
    decreases |rows|
  {
    if rows != [] {
      var n := Reach(rows, 1);
      assert |rows[..1]| == 1;
      ReachFits(rows, 1);
      hide Reach, Bytes, Split, Fits;
      PiecesSplit(rows[n..]);
      SplitCons(rows[..n], Pieces(rows[n..]), rows[n..]);
      assert rows == rows[..n] + rows[n..];
    }
  }

  // ------------------------------------------------------------------ as few as possible

  lemma {:induction false} BytesMonotone(rows: seq<Row>, m: nat, n: nat)
    requires m <= n <= |rows|
    ensures Bytes(rows[..m]) <= Bytes(rows[..n])
    decreases n - m
  {
    if m < n {
      BytesMore(rows, n - 1);
      BytesMonotone(rows, m, n - 1);
    }
  }

  /** No piece that may be sent goes further than the greedy one. */
  lemma {:induction false} ReachFurthest(rows: seq<Row>, n: nat, p: nat)
    requires 0 < n <= p <= |rows| && Fits(rows[..p])
    ensures p <= Reach(rows, n)
    decreases |rows| - n
  {
    if n < p {
      BytesMore(rows, n);
      BytesMonotone(rows, n + 1, p);
      ReachFurthest(rows, n + 1, p);
    }
  }

  lemma {:induction false} BytesTail(rows: seq<Row>)
    requires rows != []
    ensures Bytes(rows) == rows[0].size + Bytes(rows[1..])
  {
    if |rows| > 1 {
      var n := |rows| - 1;
      BytesTail(rows[..n]);
      assert rows[..n][1..] == rows[1..][..n - 1];
    } else {
      assert rows[..0] == [];
    }
  }

  /** Dropping the first row costs the greedy piece at most that row. */
  lemma ReachTail(rows: seq<Row>)
    requires |rows| > 1
    ensures Reach(rows, 1) <= 1 + Reach(rows[1..], 1)
  {
    var n := Reach(rows, 1);
    assert |rows[..1]| == 1;
    ReachFits(rows, 1);
    if n > 1 {
      BytesTail(rows[..n]);
      assert rows[..n][1..] == rows[1..][..n - 1];
      ReachFurthest(rows[1..], 1, n - 1);
    }
  }

  lemma PiecesNext(rows: seq<Row>)
    requires rows != []
    ensures |Pieces(rows)| == 1 + |Pieces(rows[Reach(rows, 1)..])|
  {
  }

  /** A later start never needs more chunks. */
  lemma {:induction false} SuffixNeedsNoMore(rows: seq<Row>, k: nat)
    requires k <= |rows|
    ensures |Pieces(rows[k..])| <= |Pieces(rows)|
    decreases |rows|, k
  {
    hide Pieces, Reach;
    if k == 0 {
      assert rows[0..] == rows;
    } else if |rows| == 1 {
      NoPieces(rows[1..]);
    } else {
      TailNeedsNoMore(rows);
      assert rows[1..][k - 1..] == rows[k..];
      SuffixNeedsNoMore(rows[1..], k - 1);
    }
  }

  lemma NoPieces(rows: seq<Row>)
    requires rows == []
    ensures Pieces(rows) == []
  {
  }

  lemma {:induction false} TailNeedsNoMore(rows: seq<Row>)
    requires |rows| > 1
    ensures |Pieces(rows[1..])| <= |Pieces(rows)|
    decreases |rows|, 0
  {
    hide Pieces, Reach;
    var tail := rows[1..];
    var n, m := Reach(rows, 1), Reach(tail, 1);
    PiecesNext(rows);
    ReachTail(rows);
    PiecesNext(tail);
    assert tail[m..] == rows[n..][1 + m - n..];
    SuffixNeedsNoMore(rows[n..], 1 + m - n);
  }

  /** No split into pieces that may be sent has fewer pieces. */
  lemma {:induction false} PiecesFewest(rows: seq<Row>, pieces: seq<seq<Row>>)
    requires Split(pieces, rows)
    ensures |Pieces(rows)| <= |pieces|
    decreases |pieces|
  {
    hide Reach, Pieces;
    if pieces == [] {
      NoPieces(rows);
    } else {
      var first, rest := pieces[0], pieces[1..];
      assert first in pieces && forall p :: p in rest ==> p in pieces;
      var p, n := |first|, Reach(rows, 1);
      assert rows[..p] == first && rows[p..] == Joined(rest);
      ReachFurthest(rows, 1, p);
      PiecesFewest(rows[p..], rest);
      assert rows[p..][n - p..] == rows[n..];
      SuffixNeedsNoMore(rows[p..], n - p);
      PiecesNext(rows);
    }
  }

  // ------------------------------------------------------------------ in figures

  /** At least one operation and at most 256, in at most 64 KiB if there is more than one. */
  predicate Limited(piece: seq<Row>) {
    1 <= |piece| <= 256 && (|piece| == 1 || Bytes(piece) <= 65536)
  }

  /** The first operation of `next` had no room left behind `piece`. */
  predicate Full(piece: seq<Row>, next: seq<Row>) {
    next != [] && (|piece| == 256 || Bytes(piece) + next[0].size > 65536)
  }

  ghost predicate FullBefore(pieces: seq<seq<Row>>, i: nat)
    requires 0 < i < |pieces|
  {
    Full(pieces[i - 1], pieces[i])
  }

  lemma {:induction false} ReachStops(rows: seq<Row>, n: nat)
    requires n <= |rows|
    ensures var r := Reach(rows, n); r == |rows| || r >= 256 || Bytes(rows[..r]) + rows[r].size > 65536
    decreases |rows| - n
  {
    if Reach(rows, n) != n { ReachStops(rows, n + 1); }
  }

  /** A new chunk is begun exactly when the next operation has no room in the one before. */
  lemma {:induction false} PiecesExactly(rows: seq<Row>)
    ensures
      var ps := Pieces(rows);
      && Joined(ps) == rows && (forall p :: p in ps ==> Limited(p))
      && (forall i :: 0 < i < |ps| ==> FullBefore(ps, i))
    decreases |rows|
  {
    PiecesSplit(rows);
    if rows != [] {
      var n := Reach(rows, 1);
      var first, rest := rows[..n], Pieces(rows[n..]);
      assert Pieces(rows) == [first] + rest;
      PiecesExactly(rows[n..]);
      ReachStops(rows, 1);
      hide Reach, Pieces, Bytes, Joined;
      assert first in [first] + rest && Fits(first);
      forall i | 0 < i < |[first] + rest| ensures FullBefore([first] + rest, i) {
        if i > 1 { assert FullBefore(rest, i - 1); } else { FirstOfAll(rest, rows[n..]); }
      }
    }
  }

  lemma FirstOfAll(pieces: seq<seq<Row>>, rows: seq<Row>)
    requires pieces != [] && Joined(pieces) == rows && forall p :: p in pieces ==> Limited(p)
    ensures rows != [] && pieces[0] != [] && pieces[0][0] == rows[0]
  {
    assert Limited(pieces[0]);
  }

  /** A chunk carries the operations of its rows, and the number of the last one. */
  ghost predicate Carries(chunk: Chunk, piece: seq<Row>) {
    && piece != [] && chunk.throughSeq == piece[|piece| - 1].seqno && |chunk.ops| == |piece|
    && forall j :: 0 <= j < |piece| ==> chunk.ops[j] == piece[j].op
  }

  lemma {:induction false} ChunksCarry(pieces: seq<seq<Row>>)
    requires forall p :: p in pieces ==> p != []
    ensures forall i :: 0 <= i < |pieces| ==> Carries(ChunksOf(pieces)[i], pieces[i])
  {
    if pieces != [] {
      var rest := pieces[1..];
      assert pieces[0] in pieces && forall p :: p in rest ==> p in pieces;
      ChunksCarry(rest);
      forall i | 0 <= i < |pieces| ensures Carries(ChunksOf(pieces)[i], pieces[i]) {
        if i > 0 { assert Carries(ChunksOf(rest)[i - 1], rest[i - 1]); }
      }
    }
  }

  // ------------------------------------------------------------------ the loop

  lemma {:induction false} GreedyIsPieces(rows: seq<Row>)
    ensures (forall p :: p in Pieces(rows) ==> p != []) && Greedy(rows) == ChunksOf(Pieces(rows))
    decreases |rows|
  {
    PiecesSplit(rows);
    if rows != [] {
      GreedyIsPieces(rows[Reach(rows, 1)..]);
      assert Pieces(rows)[1..] == Pieces(rows[Reach(rows, 1)..]);
    }
  }

  /** Finished chunks, and the one being filled, which starts `rest`. */
  ghost predicate Filling(chunks: seq<Chunk>, current: seq<Row>, rest: seq<Row>, rows: seq<Row>) {
    && Greedy(rows) == chunks + Greedy(rest)
    && |current| <= |rest| && rest[..|current|] == current
    && (current != [] ==> Reach(rest, 1) == Reach(rest, |current|))
  }

  /** The row still fits the current chunk, or starts one. */
  lemma FillingGrows(chunks: seq<Chunk>, current: seq<Row>, rest: seq<Row>, rows: seq<Row>)
    requires Filling(chunks, current, rest, rows) && |current| < |rest|
    requires current == [] || (|current| < CHUNK_MAX_OPS && Bytes(current) + rest[|current|].size <= CHUNK_MAX_BYTES)
    ensures Filling(chunks, current + [rest[|current|]], rest, rows)
  {
    hide Greedy;
    assert rest[..|current| + 1] == current + [rest[|current|]];
  }

  /** The row does not fit: the current chunk is complete. */
  lemma FillingTurns(chunks: seq<Chunk>, current: seq<Row>, rest: seq<Row>, rows: seq<Row>)
    requires Filling(chunks, current, rest, rows) && current != []
    requires |current| == |rest| || |current| >= CHUNK_MAX_OPS
      || Bytes(current) + rest[|current|].size > CHUNK_MAX_BYTES
    ensures Filling(chunks + [ChunkOf(current)], [], rest[|current|..], rows)
  {
    GreedyNext(rest, |current|);
    assert (chunks + [ChunkOf(current)]) + Greedy(rest[|current|..])
      == chunks + ([ChunkOf(current)] + Greedy(rest[|current|..]));
  }

  lemma GreedyNext(rest: seq<Row>, n: nat)
    requires rest != [] && n == Reach(rest, 1)
    ensures Greedy(rest) == [ChunkOf(rest[..n])] + Greedy(rest[n..])
  {
  }

  /** The chunks sent: all of the range in order, each within both limits and full, and as few as possible. */
  method ChunkCatchupOperations(rangeOps: seq<Row>) returns (chunks: seq<Chunk>, ghost pieces: seq<seq<Row>>)
    ensures Joined(pieces) == rangeOps && (forall p :: p in pieces ==> Limited(p))
    ensures forall i :: 0 < i < |pieces| ==> FullBefore(pieces, i)
    ensures |chunks| == |pieces| && forall i :: 0 <= i < |pieces| ==> Carries(chunks[i], pieces[i])
    ensures forall other :: Split(other, rangeOps) ==> |chunks| <= |other|
  {
    hide Pieces, Reach, ChunksOf, Bytes, Greedy, Filling;
    chunks := [];
    var current: seq<Row> := [];
    var currentBytes := 0;
    ghost var start := 0;
    FillingStarts(rangeOps);
    for i := 0 to |rangeOps|
      invariant start + |current| == i && Filling(chunks, current, rangeOps[start..], rangeOps)
      invariant currentBytes == Bytes(current)
    {
      var row := rangeOps[i];
      assert rangeOps[start..][|current|] == row;
      if |current| > 0 && (|current| >= CHUNK_MAX_OPS || currentBytes + row.size > CHUNK_MAX_BYTES) {
        FillingTurns(chunks, current, rangeOps[start..], rangeOps);
        assert rangeOps[start..][|current|..] == rangeOps[i..];
        chunks := chunks + [ChunkOf(current)];
        current := [];
        currentBytes := 0;
        start := i;
      }
      NoBytes();
      FillingGrows(chunks, current, rangeOps[start..], rangeOps);
      BytesPush(current, row);
      current := current + [row];
      currentBytes := currentBytes + row.size;
    }
    if |current| > 0 {
      FillingTurns(chunks, current, rangeOps[start..], rangeOps);
      chunks := chunks + [ChunkOf(current)];
    }
    FillingEnds(chunks, rangeOps[start..][|current|..], rangeOps);
    pieces := Pieces(rangeOps);
    PiecesSplit(rangeOps);
    GreedyIsPieces(rangeOps);
    PiecesExactly(rangeOps);
    ChunksCarry(pieces);
    forall other | Split(other, rangeOps) ensures |pieces| <= |other| { PiecesFewest(rangeOps, other); }
  }

  lemma FillingStarts(rows: seq<Row>)
    ensures Filling([], [], rows[0..], rows) && Bytes([]) == 0
  {
    assert rows[0..] == rows && [] + Greedy(rows) == Greedy(rows);
  }

  lemma FillingEnds(chunks: seq<Chunk>, rest: seq<Row>, rows: seq<Row>)
    requires Filling(chunks, [], rest, rows) && rest == []
    ensures Greedy(rows) == chunks
  {
    assert chunks + [] == chunks;
  }

  lemma NoBytes()
    ensures Bytes([]) == 0
  {
  }

  lemma BytesPush(rows: seq<Row>, row: Row)
    ensures Bytes(rows + [row]) == Bytes(rows) + row.size
  {
    assert (rows + [row])[..|rows|] == rows;
  }
}
