/**
 Splitting a blob into content-addressed chunks and putting it together again. The content address
 (SHA-256 in hexadecimal) is an arbitrary function of the bytes; where a property needs it to pin the
 bytes down, that is a premise.
 */
module Chunks {
  import opened Lists

  type Bytes = seq<bv8>
  type ChunkId = string
  type Addressing = Bytes -> ChunkId

  const DEFAULT_SIZE: nat := 4 * 1024 * 1024

  datatype Option<+T> = None | Some(value: T)

  datatype Chunk = Chunk(id: ChunkId, index: nat, data: Bytes)

  datatype Manifest = Manifest(blobID: string, size: nat, chunkIDs: seq<ChunkId>, chunkSize: nat)

  datatype SplitResult = Done(chunks: seq<Chunk>, manifest: Manifest) | Failed

  datatype ReadError = NoError | EOF | UnexpectedEOF | Broken

  /** A stream of bytes that ends either normally or, when `broken`, with an error of its own. */
  class Reader {
    var rest: Bytes
    const broken: bool

    constructor (data: Bytes, broken: bool)
      ensures rest == data && this.broken == broken
    {
      rest, this.broken := data, broken;
    }

    /** `io.ReadFull`: fill the buffer, or say why it could not be filled. */
    method ReadFull(n: nat) returns (data: Bytes, err: ReadError)
      modifies this
      ensures data == Prefix(old(rest), n) && old(rest) == data + rest
      ensures err == if |old(rest)| >= n then NoError
                     else if broken then Broken
                     else if old(rest) == [] then EOF else UnexpectedEOF
    {
      if |rest| >= n {
        data, err := rest[..n], NoError;
        rest := rest[n..];
      } else {
        data := rest;
        err := if broken then Broken else if rest == [] then EOF else UnexpectedEOF;
        rest := [];
      }
    }
  }

  /** The chunk size used when the caller asks for `requested`. */
  function EffectiveSize(requested: int): (size: nat)
    ensures size > 0
  {
    if requested <= 0 then DEFAULT_SIZE else requested
  }

  function Pieces(data: Bytes, size: nat): seq<Bytes>
    requires size > 0
  {
    if data == [] then [] else if |data| <= size then [data] else [data[..size]] + Pieces(data[size..], size)
  }

  function Numbered(address: Addressing, pieces: seq<Bytes>): (chunks: seq<Chunk>)
    ensures |chunks| == |pieces|
    ensures forall i | 0 <= i < |pieces| :: chunks[i] == Chunk(address(pieces[i]), i, pieces[i])
  {
    if pieces == [] then [] else
      var last := |pieces| - 1;
      Numbered(address, pieces[..last]) + [Chunk(address(pieces[last]), last, pieces[last])]
  }

  function Addresses(address: Addressing, pieces: seq<Bytes>): (ids: seq<ChunkId>)
    ensures |ids| == |pieces|
    ensures forall i | 0 <= i < |pieces| :: ids[i] == address(pieces[i])
  {
    if pieces == [] then [] else [address(pieces[0])] + Addresses(address, pieces[1..])
  }

  function ManifestOf(address: Addressing, blobID: string, data: Bytes, size: nat): Manifest
    requires size > 0
  {
    Manifest(blobID, |data|, Addresses(address, Pieces(data, size)), size)
  }

  method Split(address: Addressing, blobID: string, r: Reader, requested: int) returns (result: SplitResult)
    modifies r
    ensures r.broken ==> result == Failed
    ensures !r.broken ==>
              var size := EffectiveSize(requested);
              result == Done(Numbered(address, Pieces(old(r.rest), size)), ManifestOf(address, blobID, old(r.rest), size))
    ensures !r.broken ==>
              && result.Done? && result.manifest.blobID == blobID
              && result.manifest.size == |old(r.rest)| && result.manifest.size == TotalLength(result.chunks)
              && result.manifest.chunkSize == (if requested > 0 then requested else 4 * 1024 * 1024)
              && |result.manifest.chunkIDs| == |result.chunks|
              && (forall i | 0 <= i < |result.chunks| ::
                    && result.chunks[i].index == i && 0 < |result.chunks[i].data| <= result.manifest.chunkSize
                    && (i < |result.chunks| - 1 ==> |result.chunks[i].data| == result.manifest.chunkSize)
                    && result.manifest.chunkIDs[i] == result.chunks[i].id == address(result.chunks[i].data)
                    && StandsAt(old(r.rest), i * result.manifest.chunkSize, result.chunks[i].data))
  {
    hide StandsAt, Pieces, Numbered;
    var chunkSize := if requested <= 0 then DEFAULT_SIZE else requested;
    var chunks, totalSize, err := ReadChunks(address, r, chunkSize);
    if err == Broken {
      return Failed;
    }
    var chunkIDs := IdsOf(chunks);
    assert chunkIDs == Addresses(address, Pieces(old(r.rest), chunkSize));
    result := Done(chunks, Manifest(blobID, totalSize, chunkIDs, chunkSize));
    SplitMeans(address, old(r.rest), chunkSize);
  }

  function TotalLength(chunks: seq<Chunk>): nat {
    if chunks == [] then 0 else |chunks[0].data| + TotalLength(chunks[1..])
  }

  /** The bytes `part` are those of `data` from position `at` on. */
  predicate StandsAt(data: Bytes, at: int, part: Bytes) {
    0 <= at && at + |part| <= |data| && data[at..at + |part|] == part
  }

  lemma {:induction false} PieceStandsAt(data: Bytes, size: nat, i: nat, at: int)
    requires size > 0 && i < |Pieces(data, size)| && at == i * size
    ensures StandsAt(data, at, Pieces(data, size)[i])
    decreases |data|
  {
    hide StandsAt;
    if i > 0 {
      TimesBefore(i, size);
      PieceStandsAt(data[size..], size, i - 1, at - size);
      ShiftedSlice(data, size, at - size, Pieces(data, size)[i]);
    } else {
      FirstStandsAt(data, size);
    }
  }

  lemma FirstStandsAt(data: Bytes, size: nat)
    requires size > 0 && data != []
    ensures StandsAt(data, 0, Pieces(data, size)[0])
  {
    PrefixAll(data);
  }

  lemma TimesBefore(i: nat, size: nat)
    requires i > 0
    ensures i * size == (i - 1) * size + size && i * size >= size
  {
    assert (i - 1) * size >= 0;
  }

  lemma ShiftedSlice(data: Bytes, shift: nat, at: int, part: Bytes)
    requires shift <= |data| && StandsAt(data[shift..], at, part)
    ensures StandsAt(data, shift + at, part)
  {
    assert data[shift..][at..at + |part|] == data[shift + at..shift + at + |part|];
  }

  lemma {:induction false} LengthsAddUp(pieces: seq<Bytes>, chunks: seq<Chunk>)
    requires |chunks| == |pieces| && forall i | 0 <= i < |pieces| :: chunks[i].data == pieces[i]
    ensures TotalLength(chunks) == |Concat(pieces)|
  {
    if pieces != [] {
      LengthsAddUp(pieces[1..], chunks[1..]);
    }
  }

  lemma ChunkMeans(address: Addressing, data: Bytes, size: nat, i: nat)
    requires size > 0 && i < |Numbered(address, Pieces(data, size))|
    ensures var chunks := Numbered(address, Pieces(data, size));
            && 0 < |chunks[i].data| <= size && (i < |chunks| - 1 ==> |chunks[i].data| == size)
            && StandsAt(data, i * size, chunks[i].data)
  {
    hide StandsAt, Pieces;
    PiecesFull(data, size, i);
    PieceStandsAt(data, size, i, i * size);
  }

  /** What a split stream looks like, chunk by chunk. */
  lemma SplitMeans(address: Addressing, data: Bytes, size: nat)
    requires size > 0
    ensures var chunks := Numbered(address, Pieces(data, size));
            && |data| == TotalLength(chunks)
            && forall i | 0 <= i < |chunks| ::
                 && 0 < |chunks[i].data| <= size && (i < |chunks| - 1 ==> |chunks[i].data| == size)
                 && StandsAt(data, i * size, chunks[i].data)
  {
    hide StandsAt, Pieces, Numbered;
    var chunks := Numbered(address, Pieces(data, size));
    PiecesMakeUp(data, size);
    LengthsAddUp(Pieces(data, size), chunks);
    forall i | 0 <= i < |chunks|
      ensures && 0 < |chunks[i].data| <= size && (i < |chunks| - 1 ==> |chunks[i].data| == size)
              && StandsAt(data, i * size, chunks[i].data)
    {
      ChunkMeans(address, data, size, i);
    }
  }

  method IdsOf(chunks: seq<Chunk>) returns (ids: seq<ChunkId>)
    ensures |ids| == |chunks| && forall i | 0 <= i < |chunks| :: ids[i] == chunks[i].id
  {
    ids := [];
    var i := 0;
    while i < |chunks|
      invariant 0 <= i <= |chunks| && |ids| == i && forall j | 0 <= j < i :: ids[j] == chunks[j].id
    {
      ids := ids + [chunks[i].id];
      i := i + 1;
    }
  }

  /** The reading loop of `Split`. */
  method ReadChunks(address: Addressing, r: Reader, chunkSize: nat)
    returns (chunks: seq<Chunk>, totalSize: nat, err: ReadError)
    requires chunkSize > 0
    modifies r
    ensures chunks == Numbered(address, Pieces(old(r.rest), chunkSize)) && totalSize == |old(r.rest)|
    ensures err == Broken <==> r.broken
  {
    chunks, totalSize, err := [], 0, NoError;
    var idx := 0;
    ghost var done: seq<Bytes> := [];
    while err == NoError
      invariant chunks == Numbered(address, done) && idx == |done|
      invariant totalSize + |r.rest| == |old(r.rest)|
      invariant Pieces(old(r.rest), chunkSize) == done + Pieces(r.rest, chunkSize)
      invariant err != NoError ==> r.rest == [] && (err == Broken <==> r.broken)
      decreases err == NoError, |r.rest|
    {
      PiecesUnfold(r.rest, chunkSize);
      var data;
      data, err := r.ReadFull(chunkSize);
      if |data| > 0 {
        AppendCons(done, data, Pieces(r.rest, chunkSize));
        NumberedNext(address, done, data);
        chunks := chunks + [Chunk(address(data), idx, data)];
        done := done + [data];
        totalSize := totalSize + |data|;
        idx := idx + 1;
      }
    }
    assert done + [] == done;
  }

  lemma NumberedNext(address: Addressing, pieces: seq<Bytes>, piece: Bytes)
    ensures Numbered(address, pieces + [piece])
         == Numbered(address, pieces) + [Chunk(address(piece), |pieces|, piece)]
  {
    assert (pieces + [piece])[..|pieces|] == pieces;
  }

  /** The next piece is what `ReadFull` delivers. */
  lemma PiecesUnfold(data: Bytes, size: nat)
    requires size > 0
    ensures var next := Prefix(data, size);
            Pieces(data, size) == if next == [] then [] else [next] + Pieces(data[|next|..], size)
  {
    if 0 < |data| <= size {
      assert Prefix(data, size) == data;
      assert [data] + [] == [data];
    }
  }

  function Concat(pieces: seq<Bytes>): Bytes {
    if pieces == [] then [] else pieces[0] + Concat(pieces[1..])
  }

  lemma {:induction false} PiecesMakeUp(data: Bytes, size: nat)
    requires size > 0
    ensures Concat(Pieces(data, size)) == data
    decreases |data|
  {
    if |data| > size {
      PiecesMakeUp(data[size..], size);
      ConcatCons(data[..size], Pieces(data[size..], size));
      TakeDrop(data, size);
    } else if data != [] {
      ConcatCons(data, []);
      AppendNothing(data);
    }
  }

  lemma ConcatCons(piece: Bytes, pieces: seq<Bytes>)
    ensures Concat([piece] + pieces) == piece + Concat(pieces)
    ensures Concat([piece]) == piece
  {
    assert ([piece] + pieces)[1..] == pieces && [piece][1..] == [];
    AppendNothing(piece);
  }

  lemma {:induction false} PiecesFull(data: Bytes, size: nat, i: nat)
    requires size > 0 && i < |Pieces(data, size)|
    ensures if i < |Pieces(data, size)| - 1 then |Pieces(data, size)[i]| == size
            else 0 < |Pieces(data, size)[i]| <= size
    decreases |data|
  {
    if |data| > size && i > 0 {
      PiecesFull(data[size..], size, i - 1);
    } else if |data| > size {
      assert Pieces(data[size..], size) != [];
    }
  }

  lemma {:induction false} PiecesCount(data: Bytes, size: nat)
    requires size > 0
    ensures |Pieces(data, size)| == (|data| + size - 1) / size
    decreases |data|
  {
    if data == [] {
      DivideUnique(size - 1, size, 0, size - 1);
    } else {
      CeilingStep(|data|, size);
      if |data| > size {
        PiecesCount(data[size..], size);
      }
    }
  }

  /** The pieces make up the data; all but the last are full and the last is not empty. */
  lemma PiecesExact(data: Bytes, size: nat)
    requires size > 0
    ensures var ps := Pieces(data, size);
            && Concat(ps) == data
            && (forall i | 0 <= i < |ps| - 1 :: |ps[i]| == size)
            && (ps != [] ==> 0 < |ps[|ps| - 1]| <= size)
            && |ps| == (|data| + size - 1) / size
  {
    PiecesMakeUp(data, size);
    PiecesCount(data, size);
    forall i | 0 <= i < |Pieces(data, size)| {
      PiecesFull(data, size, i);
    }
  }

  lemma CeilingStep(n: nat, size: nat)
    requires 0 < n && 0 < size
    ensures n <= size ==> (n + size - 1) / size == 1
    ensures n > size ==> (n + size - 1) / size == 1 + ((n - size) + size - 1) / size
  {
    if n <= size {
      DivideUnique(n + size - 1, size, 1, n - 1);
    } else {
      var m := n - 1;
      assert m + size == (m / size + 1) * size + m % size;
      DivideUnique(m + size, size, m / size + 1, m % size);
    }
  }

  lemma DivideUnique(m: int, size: nat, q: int, r: int)
    requires 0 <= r < size && m == q * size + r
    ensures m / size == q
  {
    var d := m / size - q;
    assert d * size == r - m % size by {
      assert m == (m / size) * size + m % size;
      assert (m / size) * size == d * size + q * size;
    }
    assert d >= 1 ==> d * size >= size;
    assert d <= -1 ==> d * size + size <= 0;
  }

  // ---------------------------------------------------------------------------------------------
  // Reassembly
  // ---------------------------------------------------------------------------------------------

  type Source = ChunkId -> Option<Bytes>

  /** Does the source answer with bytes that have this address? */
  predicate Verified(address: Addressing, id: ChunkId, get: Source) {
    get(id).Some? && address(get(id).value) == id
  }

  /** The bytes of the leading chunks that can be fetched and verified. */
  function Fetched(address: Addressing, ids: seq<ChunkId>, get: Source): Bytes {
    if ids == [] || !Verified(address, ids[0], get) then [] else get(ids[0]).value + Fetched(address, ids[1..], get)
  }

  predicate AllVerified(address: Addressing, ids: seq<ChunkId>, get: Source) {
    forall id | id in ids :: Verified(address, id, get)
  }

  /** A writer that accepts so many bytes; a write it has no room for is cut short and reported. */
  class Writer {
    var out: Bytes
    const room: nat

    constructor (room: nat)
      ensures out == [] && this.room == room
    {
      out, this.room := [], room;
    }

    method Write(data: Bytes) returns (ok: bool)
      requires |out| <= room
      modifies this
      ensures out == Prefix(old(out) + data, room) && |out| <= room
      ensures ok == (|old(out)| + |data| <= room)
    {
      ok := |out| + |data| <= room;
      out := Prefix(out + data, room);
    }
  }

  method Reassemble(address: Addressing, w: Writer, ids: seq<ChunkId>, get: Source) returns (ok: bool)
    requires |w.out| <= w.room
    modifies w
    ensures w.out == Prefix(old(w.out) + Fetched(address, ids, get), w.room)
    ensures ok == (AllVerified(address, ids, get) && |old(w.out) + Fetched(address, ids, get)| <= w.room)
    ensures ok ==> forall id | id in ids :: get(id).Some? && address(get(id).value) == id
    ensures !ok ==> |w.out| == w.room || exists id :: id in ids && (get(id).Some? ==> address(get(id).value) != id)
  {
    var i := 0;
    ghost var start := w.out;
    assert w.out + Fetched(address, ids[0..], get) == start + Fetched(address, ids, get);
    assert w.out == Prefix(w.out, w.room);
    while i < |ids|
      invariant 0 <= i <= |ids| && |w.out| <= w.room
      invariant forall id | id in ids[..i] :: Verified(address, id, get)
      invariant w.out + Fetched(address, ids[i..], get) == start + Fetched(address, ids, get)
    {
      var data := get(ids[i]);
      SuffixNext(ids, i);
      PrefixNext(ids, i);
      if data.None? || address(data.value) != ids[i] {
        AppendNothing(w.out);
        assert ids[i] in ids;
        return false;
      }
      AppendAssoc(w.out, data.value, Fetched(address, ids[i + 1..], get));
      var wrote := w.Write(data.value);
      if !wrote {
        return false;
      }
      i := i + 1;
    }
    assert ids[..i] == ids;
    assert w.out + [] == w.out;
    ok := true;
  }

  lemma FetchedSingle(address: Addressing, id: ChunkId, get: Source)
    ensures AllVerified(address, [id], get) <==> Verified(address, id, get)
    ensures Fetched(address, [id], get) == if Verified(address, id, get) then get(id).value else []
  {
    assert [id][1..] == [] && id in [id];
    if get(id).Some? {
      AppendNothing(get(id).value);
    }
  }

  /** If the source answers with bytes that have the address of this piece, they are this piece. */
  ghost predicate Genuine(address: Addressing, piece: Bytes, get: Source) {
    get(address(piece)).Some? && address(get(address(piece)).value) == address(piece) ==> get(address(piece)).value == piece
  }

  /**
   Whatever the source answers, reassembly produces the original up to the first missing or corrupt
   chunk, and all of it when every chunk can be fetched and verified.
   */
  lemma {:induction false} FetchedIsPrefix(address: Addressing, pieces: seq<Bytes>, get: Source)
    requires forall p | p in pieces :: Genuine(address, p, get)
    ensures Fetched(address, Addresses(address, pieces), get) <= Concat(pieces)
    ensures AllVerified(address, Addresses(address, pieces), get) ==>
              Fetched(address, Addresses(address, pieces), get) == Concat(pieces)
  {
    if pieces != [] {
      var ids := Addresses(address, pieces);
      FetchedIsPrefix(address, pieces[1..], get);
      assert ids[1..] == Addresses(address, pieces[1..]);
      if Verified(address, ids[0], get) {
        assert Genuine(address, pieces[0], get);
        if AllVerified(address, ids, get) {
          assert forall id | id in ids[1..] :: id in ids;
        }
      } else {
        assert ids[0] in ids;
      }
    }
  }

  /** What a store keyed by address answers. */
  function FromStore(store: map<ChunkId, Bytes>): Source {
    id => if id in store then Some(store[id]) else None
  }

  /** The store after every chunk has been put into it; equal chunks share one entry. */
  function Stored(store: map<ChunkId, Bytes>, chunks: seq<Chunk>): map<ChunkId, Bytes>
    decreases |chunks|
  {
    if chunks == [] then store else Stored(store[chunks[0].id := chunks[0].data], chunks[1..])
  }

  lemma {:induction false} StoredVerifies(address: Addressing, store: map<ChunkId, Bytes>, chunks: seq<Chunk>)
    requires forall c | c in chunks :: c.id == address(c.data)
    ensures forall c | c in chunks :: Verified(address, c.id, FromStore(Stored(store, chunks)))
    ensures forall id | id in store && address(store[id]) == id ::
              Verified(address, id, FromStore(Stored(store, chunks)))
    decreases |chunks|
  {
    if chunks != [] {
      var first, store' := chunks[0], store[chunks[0].id := chunks[0].data];
      StoredVerifies(address, store', chunks[1..]);
      forall c | c in chunks ensures Verified(address, c.id, FromStore(Stored(store, chunks))) {
        assert c == first || c in chunks[1..];
        assert first.id in store' && address(store'[first.id]) == first.id;
      }
      forall id | id in store && address(store[id]) == id
        ensures Verified(address, id, FromStore(Stored(store, chunks)))
      {
        assert id in store' && address(store'[id]) == id;
      }
    }
  }

  lemma {:induction false} StoredUntouched(store: map<ChunkId, Bytes>, chunks: seq<Chunk>, id: ChunkId)
    requires forall c | c in chunks :: c.id != id
    ensures id in Stored(store, chunks) <==> id in store
    ensures id in store ==> Stored(store, chunks)[id] == store[id]
    decreases |chunks|
  {
    if chunks != [] {
      assert chunks[0] in chunks;
      StoredUntouched(store[chunks[0].id := chunks[0].data], chunks[1..], id);
    }
  }

  /** Chunks that share an address share an entry, which holds the bytes of one of them. */
  lemma {:induction false} StoredIsOneOf(store: map<ChunkId, Bytes>, chunks: seq<Chunk>, i: nat) returns (j: nat)
    requires i < |chunks|
    ensures j < |chunks| && chunks[j].id == chunks[i].id && chunks[i].id in Stored(store, chunks)
    ensures Stored(store, chunks)[chunks[i].id] == chunks[j].data
    decreases |chunks|
  {
    var store', rest := store[chunks[0].id := chunks[0].data], chunks[1..];
    if i > 0 {
      j := StoredIsOneOf(store', rest, i - 1);
      j := j + 1;
    } else if k :| 0 <= k < |rest| && rest[k].id == chunks[0].id {
      j := StoredIsOneOf(store', rest, k);
      j := j + 1;
    } else {
      StoredUntouched(store', rest, chunks[0].id);
      j := 0;
    }
  }

  /** No two different pieces have the same address. */
  ghost predicate ToldApart(address: Addressing, pieces: seq<Bytes>) {
    forall p, q | p in pieces && q in pieces :: address(p) == address(q) ==> p == q
  }

  lemma StoredIsGenuine(address: Addressing, pieces: seq<Bytes>, store: map<ChunkId, Bytes>, i: nat)
    requires ToldApart(address, pieces) && i < |pieces|
    ensures var get := FromStore(Stored(store, Numbered(address, pieces)));
            get(address(pieces[i])) == Some(pieces[i])
  {
    var j := StoredIsOneOf(store, Numbered(address, pieces), i);
    assert pieces[j] in pieces && pieces[i] in pieces;
  }

  /** Round trip: splitting, storing under the addresses and reassembling gives the blob back. */
  lemma SplitReassembleRoundTrip(address: Addressing, data: Bytes, size: nat, store: map<ChunkId, Bytes>)
    requires size > 0 && ToldApart(address, Pieces(data, size))
    ensures var ps := Pieces(data, size);
            var get := FromStore(Stored(store, Numbered(address, ps)));
            && AllVerified(address, Addresses(address, ps), get)
            && Fetched(address, Addresses(address, ps), get) == data
  {
    var ps := Pieces(data, size);
    var get := FromStore(Stored(store, Numbered(address, ps)));
    forall i | 0 <= i < |ps| ensures get(address(ps[i])) == Some(ps[i]) {
      StoredIsGenuine(address, ps, store, i);
    }
    PiecesMakeUp(data, size);
    FetchedIsPrefix(address, ps, get);
  }
}
