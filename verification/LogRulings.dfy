/** What a log commit decides and shows, told on the chunks alone. */
module LogRulings {
  import opened Base
  import opened Domain
  import opened ControlPlane
  import opened LogAssembly
  import Logs = LogAssembly

  // ----- which chunks may be committed at all

  /** The text is the sequence in decimal, with zeros in front only to make eight columns. */
  ghost predicate EightColumns(text: string, n: nat) {
    && AllDigits(text) && DigitsValue(text) == n && |text| >= 8 && (|text| > 8 ==> text[0] != '0')
  }

  lemma {:induction false} ZerosInFront(k: nat, text: string)
    requires AllDigits(text)
    ensures AllDigits(seq(k, i => '0') + text) && DigitsValue(seq(k, i => '0') + text) == DigitsValue(text)
    decreases k, |text|
  {
    var zeros := seq(k, i => '0');
    if text != [] {
      var front := text[..|text| - 1];
      ZerosInFront(k, front);
      assert (zeros + text)[..|zeros + text| - 1] == zeros + front;
    } else if k > 0 {
      ZerosInFront(k - 1, text);
      assert zeros + text == seq(k - 1, i => '0') + ['0'];
      assert (zeros + text)[..k - 1] == seq(k - 1, i => '0') + [];
    }
  }

  /** The column of an object key that orders the chunks of a stream. */
  lemma PaddedIs(n: nat)
    ensures EightColumns(Padded(n), n)
  {
    var digits := Decimal(n);
    if |digits| < 8 { ZerosInFront(8 - |digits|, digits); }
  }

  /** A chunk that names the execution's agent, store and object key, and keeps to the limits of a chunk. */
  ghost predicate Presentable(e: Execution, agent: nat, c: Chunk) {
    && 1 <= c.sequence && 0 <= c.byteOffset && 0 <= c.byteLength <= 262144 && c.stream in ["stdout", "stderr"]
    && |c.checksum| == 71 && c.checksum[..7] == "sha256:"
    && (forall i :: 7 <= i < 71 ==> '0' <= c.checksum[i] <= '9' || 'a' <= c.checksum[i] <= 'f')
    && (c.byteLength == 0 || c.truncated ==> c.complete)
    && agent == e.agent && c.agent == e.agent && c.store == e.store && c.storeVersion == e.storeVersion && !e.planned
    && c.objectKey == e.keyPrefix + c.stream + "/" + Padded(c.sequence) + ".chunk"
  }

  /** The chunks are pieces of one stream: the first starts at zero, consecutive ones adjoin, and nothing
      comes after a terminal one. */
  ghost predicate OneStream(chunks: map<int, Chunk>) {
    && (1 in chunks ==> chunks[1].byteOffset == 0)
    && (forall s, u :: s in chunks && u in chunks && u == s + 1 ==>
         chunks[u].byteOffset == chunks[s].byteOffset + chunks[s].byteLength)
    && (forall s, u :: s in chunks && u in chunks && chunks[s].complete ==> u <= s)
  }

  lemma NeighbourlyIsOneStream(chunks: map<int, Chunk>)
    requires Neighbourly(chunks)
    ensures OneStream(chunks)
  {
    forall s, u | s in chunks && u in chunks && u == s + 1
      ensures chunks[u].byteOffset == chunks[s].byteOffset + chunks[s].byteLength
    {
      assert chunks[s + 1].byteOffset == End(chunks[s]);
    }
  }

  lemma FitsInStream(chunks: map<int, Chunk>, c: Chunk)
    requires OneStream(chunks) && c.sequence !in chunks && Fits(chunks, c)
    ensures OneStream(chunks[c.sequence := c])
  {
    var after := chunks[c.sequence := c];
    forall s, u | s in after && u in after && u == s + 1
      ensures after[u].byteOffset == after[s].byteOffset + after[s].byteLength
    {
      if s == c.sequence { assert c.sequence + 1 in chunks; }
      else if u == c.sequence { assert c.sequence - 1 in chunks; }
    }
  }

  lemma StreamFits(chunks: map<int, Chunk>, c: Chunk)
    requires c.sequence !in chunks && OneStream(chunks[c.sequence := c])
    ensures Fits(chunks, c)
  {
    var after := chunks[c.sequence := c];
    assert c.sequence in after;
    if c.sequence - 1 in chunks { assert c.sequence - 1 in after; }
    if c.sequence + 1 in chunks { assert c.sequence + 1 in after; }
    forall s | s in chunks ensures s in after && after[s] == chunks[s] {}
  }

  lemma PresentableExactly(e: Execution, agent: nat, c: Chunk)
    ensures Presentable(e, agent, c) <==> WellFormed(c) && Addressed(e, agent, c)
  {
  }

  /** The row is of the chunk's store. */
  ghost predicate SameStore(t: Table, c: Chunk) {
    forall r :: t.row == Some(r) ==> r.store == c.store && r.storeVersion == c.storeVersion
  }

  /** In a complete stream nothing that fits is missing. */
  lemma CompleteHasNoRoom(t: Table, c: Chunk)
    requires Consistent(t) && t.row.Some? && t.row.value.state == Complete && c.sequence >= 1 && c.sequence !in t.chunks
    ensures !OneStream(t.chunks[c.sequence := c])
  {
    ConsistentIsSound(t);
    var n := t.row.value.lastSequence;
    assert n in t.chunks && t.chunks[n].complete && c.sequence > n;
    assert n in t.chunks[c.sequence := c] && c.sequence in t.chunks[c.sequence := c];
  }

  ghost predicate Open(t: Table) {
    t.row.Some? ==> t.row.value.state == Capturing
  }

  lemma RoomExactly(t: Table, c: Chunk)
    requires Consistent(t) && c.sequence >= 1 && c.sequence !in t.chunks
    ensures Open(t) && Fits(t.chunks, c) <==> OneStream(t.chunks[c.sequence := c])
  {
    if Open(t) && Fits(t.chunks, c) {
      NeighbourlyIsOneStream(t.chunks);
      FitsInStream(t.chunks, c);
    }
    if OneStream(t.chunks[c.sequence := c]) {
      StreamFits(t.chunks, c);
      if !Open(t) { CompleteHasNoRoom(t, c); }
    }
  }

  lemma StoredWhenFitting(t: Table, e: Execution, agent: nat, c: Chunk)
    requires Consistent(t) && c.sequence !in t.chunks && WellFormed(c) && Addressed(e, agent, c)
    ensures Commit(t, Some(e), agent, c).1 == Ok(false) <==>
      c.sequence < MAX_INT64 && End(c) <= MAX_INT64 && Open(t) && SameStore(t, c) && Fits(t.chunks, c)
  {
    if c.sequence < MAX_INT64 && End(c) <= MAX_INT64 && Open(t) && SameStore(t, c) && Fits(t.chunks, c) {
      AcceptedInsertIsStored(t, Some(e), agent, c);
    }
  }

  lemma CommitWrites(t: Table, e: Execution, agent: nat, c: Chunk)
    ensures var (u, reply) := Commit(t, Some(e), agent, c);
      && (reply == Ok(false) ==> WellFormed(c) && Addressed(e, agent, c) && c.sequence !in t.chunks)
      && (if reply == Ok(false) then u.chunks == t.chunks[c.sequence := c] else u == t)
  {
  }

  /** A new chunk is stored exactly when it is presentable, its numbers fit in 64 bits, its stream is of the
      same store, and with it the chunks are still pieces of one stream. Its row is then added and no other. */
  lemma CommitExactly(t: Table, e: Execution, agent: nat, c: Chunk)
    requires Consistent(t)
    ensures var (u, reply) := Commit(t, Some(e), agent, c);
      && (reply == Ok(false) <==>
           && Presentable(e, agent, c) && c.sequence !in t.chunks && c.sequence < 0x7fff_ffff_ffff_ffff
           && c.byteOffset + c.byteLength <= 0x7fff_ffff_ffff_ffff && SameStore(t, c)
           && OneStream(t.chunks[c.sequence := c]))
      && (if reply == Ok(false) then u.chunks == t.chunks[c.sequence := c] else u == t)
  {
    PresentableExactly(e, agent, c);
    CommitWrites(t, e, agent, c);
    if WellFormed(c) && Addressed(e, agent, c) && c.sequence !in t.chunks {
      StoredWhenFitting(t, e, agent, c);
      RoomExactly(t, c);
    }
  }

  /** A repeated chunk is a replay exactly when it is the one that is stored. */
  lemma RepeatExactly(t: Table, e: Execution, agent: nat, c: Chunk)
    ensures var (u, reply) := Commit(t, Some(e), agent, c);
      && (reply == Ok(true) <==>
           Presentable(e, agent, c) && c.sequence in t.chunks && t.chunks[c.sequence].digest == c.digest)
      && (reply == Err(IdempotencyConflict) <==>
           Presentable(e, agent, c) && c.sequence in t.chunks && t.chunks[c.sequence].digest != c.digest)
  {
    PresentableExactly(e, agent, c);
  }

  // ----- what a stream shows

  /** The row shows the longest unbroken run of chunks from the first one: its last sequence, its bytes, and
      whether it is the whole stream and was cut short. */
  ghost predicate ShowsPrefix(t: Table) {
    forall r :: t.row == Some(r) ==>
      && 0 <= r.lastSequence && (forall i :: 1 <= i <= r.lastSequence ==> i in t.chunks)
      && r.lastSequence + 1 !in t.chunks
      && r.byteLength == (if r.lastSequence in t.chunks
                          then t.chunks[r.lastSequence].byteOffset + t.chunks[r.lastSequence].byteLength else 0)
      && (r.state == Complete <==> r.lastSequence in t.chunks && t.chunks[r.lastSequence].complete)
      && (r.truncated <==> r.lastSequence in t.chunks && t.chunks[r.lastSequence].truncated)
  }

  lemma ConsistentShows(t: Table)
    requires Consistent(t)
    ensures ShowsPrefix(t)
  {
    if t.row.Some? {
      var n := t.row.value.lastSequence;
      PrefixIsSeamless(t.chunks, n);
      if n in t.chunks { assert WellFormed(t.chunks[n]); }
    }
  }

  /** After any run of commits, accepted or not, a stream shows its prefix. */
  lemma StreamShowsPrefix(requests: seq<Request>)
    ensures ShowsPrefix(Deliver(EMPTY, requests)) && OneStream(Deliver(EMPTY, requests).chunks)
  {
    RunsStayConsistent(requests);
    ConsistentShows(Deliver(EMPTY, requests));
    NeighbourlyIsOneStream(Deliver(EMPTY, requests).chunks);
  }

  /** In the control plane a commit touches at most the one stream of the one execution, which its own agent
      was offered and has accepted or seen withdrawn. */
  lemma CommitLogMeans(w: World, j: nat, agent: nat, store: string, version: Logs.Int64, prefix: string, c: Chunk)
    ensures var v := CommitLog(w, j, agent, store, version, prefix, c);
      v != w ==>
        && j in w.jobs && !w.jobs[j].life.Waiting? && !w.jobs[j].life.Dropped? && !w.jobs[j].life.Offered?
        && agent == w.jobs[j].life.dispatch.agent && c.agent == agent && c.store == store && c.storeVersion == version
        && var key := (w.jobs[j].life.dispatch.execution, c.stream);
           && v == w.(logs := v.logs) && key in v.logs && v.logs == w.logs[key := v.logs[key]]
           && v.logs[key].chunks == (if key in w.logs then w.logs[key].chunks else map[])[c.sequence := c]
  {
  }
}
