/** Out-of-order assembly of one execution's log stream.

    An agent uploads numbered chunks and commits their references in any order, with
    retries. The store checks each chunk only against its two neighbours and the terminal
    marker, then re-derives the visible prefix of the stream. */
module LogAssembly {
  import opened Base

  type Int64 = x: int | -MAX_INT64 - 1 <= x <= MAX_INT64

  const MAX_CHUNK_BYTES := 262144

  datatype Chunk = Chunk(
    agent: nat, stream: string, sequence: Int64, store: string, storeVersion: Int64,
    objectKey: string, byteOffset: Int64, byteLength: Int64, checksum: string,
    complete: bool, truncated: bool, digest: nat)

  /** What the commit reads about the execution a chunk belongs to. */
  datatype Execution = Execution(
    agent: nat, planned: bool, store: string, storeVersion: Int64, keyPrefix: string)

  datatype StreamState = Capturing | Complete

  datatype Row = Row(
    state: StreamState, store: string, storeVersion: Int64,
    byteLength: int, lastSequence: int, truncated: bool)

  /** One log_streams row and the log_chunks rows below it, keyed by sequence. */
  datatype Table = Table(row: Option<Row>, chunks: map<int, Chunk>)

  const EMPTY := Table(None, map[])

  // ----- checks on a single chunk

  predicate ValidChecksum(s: string) {
    |s| == 71 && s[..7] == "sha256:" && forall i :: 7 <= i < 71 ==> IsHexDigit(s[i])
  }

  predicate WellFormed(c: Chunk) {
    && 1 <= c.sequence && 0 <= c.byteOffset && 0 <= c.byteLength <= MAX_CHUNK_BYTES
    && (c.stream == "stdout" || c.stream == "stderr")
    && ValidChecksum(c.checksum)
    && (c.byteLength == 0 ==> c.complete)
    && (c.truncated ==> c.complete)
  }

  /** Eight-column zero-padded decimal. */
  function Padded(n: nat): (s: string) {
    var digits := Decimal(n);
    if |digits| < 8 then seq(8 - |digits|, i => '0') + digits else digits
  }

  function ExpectedKey(e: Execution, c: Chunk): string
    requires c.sequence >= 0
  {
    e.keyPrefix + c.stream + "/" + Padded(c.sequence) + ".chunk"
  }

  /** The chunk names the execution's agent, approved store and object key. */
  predicate Addressed(e: Execution, agent: nat, c: Chunk) {
    && e.agent == agent == c.agent
    && c.store == e.store && c.storeVersion == e.storeVersion
    && !e.planned
    && c.sequence >= 0 && c.objectKey == ExpectedKey(e, c)
  }

  function End(c: Chunk): int {
    c.byteOffset + c.byteLength
  }

  predicate HasTerminal(chunks: map<int, Chunk>) {
    exists s :: s in chunks && chunks[s].complete
  }

  /** The neighbour and terminal-marker checks made before an insert. */
  predicate Fits(chunks: map<int, Chunk>, c: Chunk) {
    && (c.sequence == 1 ==> c.byteOffset == 0)
    && (c.sequence - 1 in chunks ==> End(chunks[c.sequence - 1]) == c.byteOffset)
    && (c.sequence + 1 in chunks ==> End(c) == chunks[c.sequence + 1].byteOffset)
    && (HasTerminal(chunks) ==> exists s :: s in chunks && chunks[s].complete && c.sequence < s)
    && (c.complete ==> !HasTerminal(chunks) && forall s :: s in chunks ==> s < c.sequence)
  }

  // ----- the visible prefix

  ghost function Beyond(chunks: map<int, Chunk>, k: int): set<int> {
    set s | s in chunks && s > k
  }

  /** The last sequence of the unbroken prefix that starts after k, stopping at a terminal chunk. */
  function Frontier(chunks: map<int, Chunk>, k: nat): (last: nat)
    requires k > 0 ==> k in chunks
    ensures k <= last && (last > 0 ==> last in chunks)
    ensures forall i :: k < i <= last ==> i in chunks
    ensures forall i :: k <= i < last && i > 0 ==> !chunks[i].complete
    ensures last + 1 in chunks ==> last > 0 && chunks[last].complete
    decreases Beyond(chunks, k)
  {
    if (k > 0 && chunks[k].complete) || k + 1 !in chunks then k
    else
      assert k + 1 in Beyond(chunks, k) && Beyond(chunks, k + 1) == Beyond(chunks, k) - {k + 1};
      Frontier(chunks, k + 1)
  }

  predicate HasPrefix(chunks: map<int, Chunk>, n: nat) {
    forall i :: 1 <= i <= n ==> i in chunks
  }

  function PrefixBytes(chunks: map<int, Chunk>, n: nat): int
    requires HasPrefix(chunks, n)
  {
    if n == 0 then 0 else PrefixBytes(chunks, n - 1) + chunks[n].byteLength
  }

  /** Offsets of the visible prefix are consecutive; the projection fails where they are not. */
  predicate Seamless(chunks: map<int, Chunk>, n: nat)
    requires HasPrefix(chunks, n)
  {
    n > 0 ==> Seamless(chunks, n - 1) && chunks[n].byteOffset == PrefixBytes(chunks, n - 1)
  }

  lemma {:induction false} SeamlessBelow(chunks: map<int, Chunk>, m: nat, n: nat)
    requires m <= n && HasPrefix(chunks, n) && Seamless(chunks, n)
    ensures HasPrefix(chunks, m) && Seamless(chunks, m)
  {
    if m < n { SeamlessBelow(chunks, m, n - 1); }
  }

  /** The stream columns a chunk set determines. */
  function Project(row: Row, chunks: map<int, Chunk>): (r: Row) {
    var last := Frontier(chunks, 0);
    var complete := last > 0 && chunks[last].complete;
    row.(byteLength := PrefixBytes(chunks, last), lastSequence := last,
         state := if complete then Complete else row.state,
         truncated := if complete then chunks[last].truncated else row.truncated)
  }

  function FreshRow(c: Chunk): Row {
    Row(Capturing, c.store, c.storeVersion, 0, 0, false)
  }

  /** One commit transaction: the new tables and whether the chunk was a replay. */
  function Commit(t: Table, execution: Option<Execution>, agent: nat, c: Chunk): (r: (Table, Result<bool>)) {
    if !WellFormed(c) then (t, Err(Conflict))
    else if execution.None? then (t, Err(NotFound))
    else if execution.value.agent != agent || c.agent != agent then (t, Err(Forbidden))
    else if c.store != execution.value.store || c.storeVersion != execution.value.storeVersion then (t, Err(Forbidden))
    else if !Addressed(execution.value, agent, c) then (t, Err(Conflict))
    else if c.sequence in t.chunks then
      if t.chunks[c.sequence].digest != c.digest then (t, Err(IdempotencyConflict)) else (t, Ok(true))
    else if c.byteOffset > MAX_INT64 - c.byteLength then (t, Err(Conflict))
    else
      var row := if t.row.Some? then t.row.value else FreshRow(c);
      if row.state != Capturing || row.store != c.store || row.storeVersion != c.storeVersion then (t, Err(Conflict))
      else if c.sequence == MAX_INT64 then (t, Err(Internal))
      else if !Fits(t.chunks, c) then (t, Err(Conflict))
      else
        var chunks := t.chunks[c.sequence := c];
        if !Seamless(chunks, Frontier(chunks, 0)) then (t, Err(Conflict))
        else (Table(Some(Project(row, chunks)), chunks), Ok(false))
  }

  ghost predicate FromStore(t: Table, e: Execution) {
    t.row.Some? ==> t.row.value.store == e.store && t.row.value.storeVersion == e.storeVersion
  }

  // ----- what every reachable table satisfies

  ghost predicate Neighbourly(chunks: map<int, Chunk>) {
    && (forall s :: s in chunks ==> 1 <= s < MAX_INT64 && chunks[s].sequence == s && WellFormed(chunks[s]))
    && (forall s :: s in chunks ==> End(chunks[s]) <= MAX_INT64)
    && (1 in chunks ==> chunks[1].byteOffset == 0)
    && (forall s {:trigger chunks[s]} :: s in chunks && s + 1 in chunks ==> chunks[s + 1].byteOffset == End(chunks[s]))
    && (forall s, u :: s in chunks && u in chunks && chunks[s].complete ==> u <= s)
  }

  /** Neighbourly chunks, and stream columns that are exactly the projection of the chunks. */
  ghost predicate Consistent(t: Table) {
    && Neighbourly(t.chunks)
    && (t.row.None? <==> t.chunks == map[])
    && (t.row.Some? ==>
         t.row.value == Project(Row(Capturing, t.row.value.store, t.row.value.storeVersion, 0, 0, false), t.chunks))
  }

  lemma {:induction false} PrefixIsSeamless(chunks: map<int, Chunk>, n: nat)
    requires Neighbourly(chunks) && HasPrefix(chunks, n)
    ensures Seamless(chunks, n)
    ensures n > 0 ==> PrefixBytes(chunks, n) == End(chunks[n])
    ensures 0 <= PrefixBytes(chunks, n) <= MAX_INT64
  {
    if n > 0 {
      PrefixIsSeamless(chunks, n - 1);
      if n > 1 { assert n - 1 in chunks && chunks[n - 1 + 1].byteOffset == End(chunks[n - 1]); }
    }
  }

  lemma InsertIsNeighbourly(chunks: map<int, Chunk>, c: Chunk)
    requires Neighbourly(chunks) && WellFormed(c) && c.sequence !in chunks && c.sequence < MAX_INT64
    requires End(c) <= MAX_INT64 && Fits(chunks, c)
    ensures Neighbourly(chunks[c.sequence := c])
  {
    var after := chunks[c.sequence := c];
    forall s | s in after && s + 1 in after ensures after[s + 1].byteOffset == End(after[s]) {
      if s == c.sequence { assert c.sequence + 1 in chunks; }
      else if s + 1 == c.sequence { assert c.sequence - 1 in chunks; }
    }
  }

  /** The conflict branch of the projection is dead: a chunk that passed the neighbour checks is stored. */
  lemma AcceptedInsertIsStored(t: Table, execution: Option<Execution>, agent: nat, c: Chunk)
    requires Consistent(t) && WellFormed(c) && c.sequence !in t.chunks && c.sequence < MAX_INT64
    requires execution.Some? && Addressed(execution.value, agent, c) && End(c) <= MAX_INT64
    requires t.row.Some? ==>
      t.row.value.state == Capturing && t.row.value.store == c.store && t.row.value.storeVersion == c.storeVersion
    requires Fits(t.chunks, c)
    ensures Commit(t, execution, agent, c).1 == Ok(false)
    ensures Commit(t, execution, agent, c).0.chunks == t.chunks[c.sequence := c]
    ensures FromStore(Commit(t, execution, agent, c).0, execution.value)
  {
    InsertIsNeighbourly(t.chunks, c);
    PrefixIsSeamless(t.chunks[c.sequence := c], Frontier(t.chunks[c.sequence := c], 0));
  }

  /** Any prefix end with the frontier's properties is the frontier. */
  lemma FrontierIs(chunks: map<int, Chunk>, n: nat)
    requires HasPrefix(chunks, n)
    requires forall i :: 1 <= i < n ==> !chunks[i].complete
    requires n + 1 in chunks ==> n > 0 && chunks[n].complete
    ensures Frontier(chunks, 0) == n
  {
    var last := Frontier(chunks, 0);
    if last < n { assert false; }
    if n < last { assert false; }
  }

  lemma {:induction false} PrefixBytesAgree(small: map<int, Chunk>, large: map<int, Chunk>, n: nat)
    requires HasPrefix(small, n) && HasPrefix(large, n)
    requires forall i :: 1 <= i <= n ==> small[i] == large[i]
    ensures PrefixBytes(small, n) == PrefixBytes(large, n)
  {
    if n > 0 { PrefixBytesAgree(small, large, n - 1); }
  }

  lemma {:induction false} PrefixBytesGrow(chunks: map<int, Chunk>, m: nat, n: nat)
    requires m <= n && HasPrefix(chunks, n) && Neighbourly(chunks)
    ensures HasPrefix(chunks, m) && PrefixBytes(chunks, m) <= PrefixBytes(chunks, n)
  {
    if m < n { PrefixBytesGrow(chunks, m, n - 1); }
  }

  ghost predicate Extends(small: map<int, Chunk>, large: map<int, Chunk>) {
    forall s :: s in small ==> s in large && large[s] == small[s]
  }

  /** Chunks are never altered, the visible prefix never shrinks, completion freezes the stream. */
  ghost predicate Grows(t: Table, u: Table) {
    && Extends(t.chunks, u.chunks)
    && (t.row.Some? ==>
      && u.row.Some? && u.row.value.store == t.row.value.store && u.row.value.storeVersion == t.row.value.storeVersion
      && t.row.value.byteLength <= u.row.value.byteLength
      && t.row.value.lastSequence <= u.row.value.lastSequence
      && (t.row.value.state == Complete ==> u == t))
  }

  lemma ProjectionGrows(row: Row, small: map<int, Chunk>, large: map<int, Chunk>)
    requires Neighbourly(small) && Neighbourly(large) && Extends(small, large)
    ensures Project(row, small).byteLength <= Project(row, large).byteLength
    ensures Project(row, small).lastSequence <= Project(row, large).lastSequence
  {
    var m, n := Frontier(small, 0), Frontier(large, 0);
    if n < m { assert false; }
    PrefixBytesAgree(small, large, m);
    PrefixBytesGrow(large, m, n);
  }

  /** Every commit keeps the table consistent and only ever extends it. */
  lemma CommitKeeps(t: Table, execution: Option<Execution>, agent: nat, c: Chunk)
    requires Consistent(t)
    ensures Consistent(Commit(t, execution, agent, c).0)
    ensures Grows(t, Commit(t, execution, agent, c).0)
  {
    var (u, reply) := Commit(t, execution, agent, c);
    if u != t {
      InsertIsNeighbourly(t.chunks, c);
      ProjectionGrows(FreshRow(c), t.chunks, u.chunks);
    }
  }

  // ----- whole runs

  datatype Request = Request(execution: Option<Execution>, agent: nat, chunk: Chunk)

  /** The tables after a run of commit requests. */
  function Deliver(t: Table, requests: seq<Request>): Table {
    if requests == [] then t else
      var last := requests[|requests| - 1];
      Commit(Deliver(t, requests[..|requests| - 1]), last.execution, last.agent, last.chunk).0
  }

  lemma {:induction false} RunsStayConsistent(requests: seq<Request>)
    ensures Consistent(Deliver(EMPTY, requests))
  {
    if requests != [] {
      var last := requests[|requests| - 1];
      RunsStayConsistent(requests[..|requests| - 1]);
      CommitKeeps(Deliver(EMPTY, requests[..|requests| - 1]), last.execution, last.agent, last.chunk);
    }
  }

  /** What a consistent table tells a reader: one terminal chunk at most and it has the largest
      sequence; the visible length is the end of the last visible chunk and fits in 64 bits; the stream
      is complete exactly when the terminal chunk and everything before it are present. */
  ghost predicate Sound(t: Table) {
    && (forall s, u :: s in t.chunks && u in t.chunks && t.chunks[s].complete ==> u <= s)
    && (t.row.Some? ==>
      && 0 <= t.row.value.byteLength <= MAX_INT64
      && 0 <= t.row.value.lastSequence
      && HasPrefix(t.chunks, t.row.value.lastSequence)
      && (t.row.value.lastSequence > 0 ==> t.row.value.byteLength == End(t.chunks[t.row.value.lastSequence]))
      && (t.row.value.state == Complete <==> TerminalAt(t.chunks, t.row.value.lastSequence)))
  }

  ghost predicate TerminalAt(chunks: map<int, Chunk>, n: int) {
    n in chunks && chunks[n].complete && forall s :: s in chunks ==> s <= n
  }

  lemma ConsistentIsSound(t: Table)
    requires Consistent(t)
    ensures Sound(t)
  {
    if t.row.Some? {
      PrefixIsSeamless(t.chunks, t.row.value.lastSequence);
    }
  }

  lemma RunInvariant(requests: seq<Request>)
    ensures Sound(Deliver(EMPTY, requests))
  {
    RunsStayConsistent(requests);
    ConsistentIsSound(Deliver(EMPTY, requests));
  }

  /** Confluence in general: however two runs got there, the same chunk set shows the same stream. */
  lemma SameChunksSameStream(first: seq<Request>, second: seq<Request>)
    requires Deliver(EMPTY, first).chunks == Deliver(EMPTY, second).chunks
    requires var t, u := Deliver(EMPTY, first), Deliver(EMPTY, second);
      t.row.Some? && u.row.Some? ==>
        t.row.value.store == u.row.value.store && t.row.value.storeVersion == u.row.value.storeVersion
    ensures Deliver(EMPTY, first) == Deliver(EMPTY, second)
  {
    RunsStayConsistent(first);
    RunsStayConsistent(second);
  }

  // ----- a byte stream cut into chunks, delivered in any order with duplicates

  /** cut[i] is chunk i + 1 of one stream: consecutive offsets from zero, only the last one terminal. */
  ghost predicate IsCut(cut: seq<Chunk>, e: Execution, agent: nat) {
    && 0 < |cut| < MAX_INT64
    && (forall i :: 0 <= i < |cut| ==>
      && cut[i].sequence == i + 1 && WellFormed(cut[i]) && Addressed(e, agent, cut[i]) && End(cut[i]) <= MAX_INT64
      && (cut[i].complete <==> i == |cut| - 1))
    && cut[0].byteOffset == 0
    && (forall i :: 0 <= i < |cut| - 1 ==> Adjoin(cut, i))
  }

  ghost predicate Adjoin(cut: seq<Chunk>, i: int)
    requires 0 <= i < |cut| - 1
  {
    cut[i + 1].byteOffset == End(cut[i])
  }

  ghost predicate Indices(cut: seq<Chunk>, order: seq<nat>) {
    forall p :: 0 <= p < |order| ==> order[p] < |cut|
  }

  ghost function Requests(cut: seq<Chunk>, e: Execution, agent: nat, order: seq<nat>): (rs: seq<Request>)
    requires Indices(cut, order)
    ensures |rs| == |order|
  {
    seq(|order|, p requires 0 <= p < |order| => Request(Some(e), agent, cut[order[p]]))
  }

  /** Exactly the chunks named in order are stored. */
  ghost predicate Stored(chunks: map<int, Chunk>, cut: seq<Chunk>, order: seq<nat>)
    requires Indices(cut, order)
  {
    && (forall s :: s in chunks <==> 1 <= s <= |cut| && s - 1 in order)
    && (forall s :: s in chunks ==> chunks[s] == cut[s - 1])
  }

  lemma CutFits(chunks: map<int, Chunk>, cut: seq<Chunk>, e: Execution, agent: nat, order: seq<nat>, next: nat)
    requires IsCut(cut, e, agent) && Indices(cut, order) && next < |cut| && next !in order
    requires Stored(chunks, cut, order)
    ensures cut[next].sequence !in chunks && Fits(chunks, cut[next])
  {
    var c := cut[next];
    if c.sequence - 1 in chunks { assert Adjoin(cut, next - 1); }
    if c.sequence + 1 in chunks { assert Adjoin(cut, next); }
  }

  lemma GapKeepsOpen(t: Table, cut: seq<Chunk>, order: seq<nat>, missing: nat)
    requires Consistent(t) && t.row.Some?
    requires Indices(cut, order) && Stored(t.chunks, cut, order) && missing < |cut| && missing !in order
    requires forall i :: 0 <= i < |cut| ==> (cut[i].complete <==> i == |cut| - 1)
    ensures t.row.value.state == Capturing && t.row.value.lastSequence <= missing
  {
    ConsistentIsSound(t);
    assert missing + 1 !in t.chunks;
    if t.row.value.lastSequence > missing { assert false; }
  }

  lemma StoredAfter(chunks: map<int, Chunk>, cut: seq<Chunk>, order: seq<nat>, next: nat)
    requires Indices(cut, order) && next < |cut| && Stored(chunks, cut, order)
    requires cut[next].sequence == next + 1
    ensures Stored(chunks[next + 1 := cut[next]], cut, order + [next])
    ensures next in order ==> Stored(chunks, cut, order + [next])
  {
  }

  /** A chunk that is already stored is answered from the table, whatever the stream's state. */
  lemma ReplayIsAnswered(t: Table, execution: Option<Execution>, agent: nat, c: Chunk)
    requires WellFormed(c) && execution.Some? && Addressed(execution.value, agent, c)
    requires c.sequence in t.chunks && t.chunks[c.sequence].digest == c.digest
    ensures Commit(t, execution, agent, c) == (t, Ok(true))
  {
  }

  lemma DeliverOne(t: Table, cut: seq<Chunk>, e: Execution, agent: nat, order: seq<nat>, next: nat)
    requires IsCut(cut, e, agent) && Indices(cut, order) && next < |cut|
    requires Consistent(t) && Stored(t.chunks, cut, order) && FromStore(t, e)
    ensures Stored(Commit(t, Some(e), agent, cut[next]).0.chunks, cut, order + [next])
    ensures Commit(t, Some(e), agent, cut[next]).1 == Ok(next in order)
    ensures FromStore(Commit(t, Some(e), agent, cut[next]).0, e)
  {
    if next !in order {
      CutFits(t.chunks, cut, e, agent, order, next);
      if t.row.Some? { GapKeepsOpen(t, cut, order, next); }
      AcceptedInsertIsStored(t, Some(e), agent, cut[next]);
    } else {
      assert cut[next].sequence in t.chunks;
      ReplayIsAnswered(t, Some(e), agent, cut[next]);
    }
    StoredAfter(t.chunks, cut, order, next);
  }

  lemma RequestsBefore(cut: seq<Chunk>, e: Execution, agent: nat, order: seq<nat>)
    requires Indices(cut, order) && order != []
    ensures var rs := Requests(cut, e, agent, order);
      && rs[..|rs| - 1] == Requests(cut, e, agent, order[..|order| - 1])
      && rs[|rs| - 1] == Request(Some(e), agent, cut[order[|order| - 1]])
  {
  }

  lemma {:induction false} DeliverMany(cut: seq<Chunk>, e: Execution, agent: nat, order: seq<nat>)
    requires IsCut(cut, e, agent) && Indices(cut, order)
    ensures var t := Deliver(EMPTY, Requests(cut, e, agent, order));
      Consistent(t) && Stored(t.chunks, cut, order) && FromStore(t, e)
  {
    if order != [] {
      var before := order[..|order| - 1];
      var rs := Requests(cut, e, agent, order);
      DeliverMany(cut, e, agent, before);
      RequestsBefore(cut, e, agent, order);
      assert order == before + [order[|order| - 1]];
      DeliverOne(Deliver(EMPTY, rs[..|rs| - 1]), cut, e, agent, before, order[|order| - 1]);
      RunsStayConsistent(rs);
    }
  }

  /** Every delivery is accepted; it is reported as a replay exactly when its chunk came before. */
  lemma EveryDeliveryAccepted(cut: seq<Chunk>, e: Execution, agent: nat, order: seq<nat>, p: nat)
    requires IsCut(cut, e, agent) && Indices(cut, order) && p < |order|
    ensures Commit(Deliver(EMPTY, Requests(cut, e, agent, order[..p])), Some(e), agent, cut[order[p]]).1 ==
      Ok(order[p] in order[..p])
  {
    DeliverMany(cut, e, agent, order[..p]);
    DeliverOne(Deliver(EMPTY, Requests(cut, e, agent, order[..p])), cut, e, agent, order[..p], order[p]);
  }

  /** Once every chunk has arrived, in whatever order, the stream is complete and exact. */
  lemma AnyOrderCompletes(cut: seq<Chunk>, e: Execution, agent: nat, order: seq<nat>)
    requires IsCut(cut, e, agent) && Indices(cut, order)
    requires forall i: nat :: i < |cut| ==> i in order
    ensures var t := Deliver(EMPTY, Requests(cut, e, agent, order));
      t.row == Some(Row(Complete, e.store, e.storeVersion, End(cut[|cut| - 1]), |cut|, cut[|cut| - 1].truncated))
  {
    var t := Deliver(EMPTY, Requests(cut, e, agent, order));
    DeliverMany(cut, e, agent, order);
    assert |cut| in t.chunks;
    FrontierIs(t.chunks, |cut|);
    PrefixIsSeamless(t.chunks, |cut|);
  }

  /** While some chunk is missing the stream stays open: completion is never early. */
  lemma MissingChunkKeepsOpen(cut: seq<Chunk>, e: Execution, agent: nat, order: seq<nat>, missing: nat)
    requires IsCut(cut, e, agent) && Indices(cut, order)
    requires missing < |cut| && missing !in order
    ensures var t := Deliver(EMPTY, Requests(cut, e, agent, order));
      t.row.Some? ==> t.row.value.state == Capturing && t.row.value.lastSequence <= missing
  {
    DeliverMany(cut, e, agent, order);
    if Deliver(EMPTY, Requests(cut, e, agent, order)).row.Some? {
      GapKeepsOpen(Deliver(EMPTY, Requests(cut, e, agent, order)), cut, order, missing);
    }
  }
}
