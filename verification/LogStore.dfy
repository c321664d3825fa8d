/** The commit transaction as the store runs it, statement by statement. */
module LogStore {
  import opened Base
  import opened LogAssembly

  datatype Projection = Projection(lastSequence: int, byteLength: int, complete: bool, truncated: bool)

  lemma FrontierAtLeast(chunks: map<int, Chunk>, n: nat)
    requires HasPrefix(chunks, n) && forall k :: 1 <= k < n ==> !chunks[k].complete
    ensures n <= Frontier(chunks, 0)
  {
    if Frontier(chunks, 0) < n { assert false; }
  }

  /** The state of the walk after n chunks, none of them terminal except perhaps the last. */
  ghost predicate Walked(chunks: map<int, Chunk>, n: int, bytes: int) {
    && 0 <= n && HasPrefix(chunks, n) && Seamless(chunks, n) && bytes == PrefixBytes(chunks, n)
    && forall k :: 1 <= k < n ==> !chunks[k].complete
  }

  lemma WalkOn(chunks: map<int, Chunk>, n: int, bytes: int)
    requires Walked(chunks, n, bytes) && n + 1 in chunks && (n > 0 ==> !chunks[n].complete)
    ensures chunks[n + 1].byteOffset == bytes ==> Walked(chunks, n + 1, bytes + chunks[n + 1].byteLength)
    ensures chunks[n + 1].byteOffset != bytes ==> !Seamless(chunks, Frontier(chunks, 0))
    ensures n + 1 in Beyond(chunks, n) && Beyond(chunks, n + 1) == Beyond(chunks, n) - {n + 1}
  {
    assert HasPrefix(chunks, n + 1);
    FrontierAtLeast(chunks, n + 1);
    if Seamless(chunks, Frontier(chunks, 0)) { SeamlessBelow(chunks, n + 1, Frontier(chunks, 0)); }
  }

  /** Reads the chunks in sequence order up to the first gap or the terminal chunk, failing where an
      offset is not the number of bytes read so far. */
  method ContiguousLogProjection(chunks: map<int, Chunk>) returns (r: Result<Projection>)
    ensures var last := Frontier(chunks, 0);
      r == if Seamless(chunks, last)
           then Ok(Projection(last, PrefixBytes(chunks, last), last > 0 && chunks[last].complete,
                              last > 0 && chunks[last].complete && chunks[last].truncated))
           else Err(Conflict)
  {
    var lastSequence, byteLength, complete, truncated, expectedSequence := 0, 0, false, false, 1;
    while expectedSequence in chunks && !complete
      invariant expectedSequence == lastSequence + 1 && Walked(chunks, lastSequence, byteLength)
      invariant complete == (lastSequence > 0 && chunks[lastSequence].complete)
      invariant truncated == (complete && chunks[lastSequence].truncated)
      decreases Beyond(chunks, lastSequence)
    {
      WalkOn(chunks, lastSequence, byteLength);
      var chunk := chunks[expectedSequence];
      if chunk.byteOffset != byteLength {
        return Err(Conflict);
      }
      lastSequence := expectedSequence;
      byteLength := byteLength + chunk.byteLength;
      expectedSequence := expectedSequence + 1;
      if chunk.complete {
        complete, truncated := true, chunk.truncated;
      }
    }
    FrontierIs(chunks, lastSequence);
    r := Ok(Projection(lastSequence, byteLength, complete, truncated));
  }

  /** The log_streams and log_chunks rows of one (execution, stream) pair. */
  class StreamTables {
    var row: Option<Row>
    var chunks: map<int, Chunk>

    ghost function View(): Table
      reads this
    {
      Table(row, chunks)
    }

    constructor ()
      ensures View() == EMPTY
    {
      row := None;
      chunks := map[];
    }

    /** Nothing is written unless the whole transaction succeeds. */
    method CommitLogChunk(execution: Option<Execution>, agent: nat, c: Chunk) returns (r: Result<bool>)
      modifies this
      ensures (View(), r) == Commit(old(View()), execution, agent, c)
    {
      if !WellFormed(c) { return Err(Conflict); }
      if execution.None? { return Err(NotFound); }
      var e := execution.value;
      if e.agent != agent || c.agent != agent { return Err(Forbidden); }
      if c.store != e.store || c.storeVersion != e.storeVersion { return Err(Forbidden); }
      if e.planned { return Err(Conflict); }
      if c.objectKey != ExpectedKey(e, c) { return Err(Conflict); }
      var stream := if row.None? then FreshRow(c) else row.value;
      if c.sequence in chunks {
        if chunks[c.sequence].digest != c.digest { return Err(IdempotencyConflict); }
        return Ok(true);
      }
      if c.byteOffset > MAX_INT64 - c.byteLength { return Err(Conflict); }
      if stream.state != Capturing || stream.store != c.store
        || stream.storeVersion != c.storeVersion { return Err(Conflict); }
      if c.sequence == MAX_INT64 { return Err(Internal); }
      if !Fits(chunks, c) { return Err(Conflict); }
      var inserted := chunks[c.sequence := c];
      var projection := ContiguousLogProjection(inserted);
      if projection.Err? { return Err(projection.error); }
      var p := projection.value;
      chunks := inserted;
      row := Some(stream.(
        byteLength := p.byteLength, lastSequence := p.lastSequence,
        state := if p.complete then Complete else stream.state,
        truncated := if p.complete then p.truncated else stream.truncated));
      r := Ok(false);
    }
  }
}
