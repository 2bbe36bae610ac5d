/** What a request handler's flush is for: the statements that a protocol parser finds in the
    bytes read before the flush are accounted for in the request's record. */
module SniffedRecords {
  import opened Effects
  import opened Framing
  import opened HookTraffic
  import opened CapturePath
  import Sniffer
  import R = Recorder
  import MysqlParser
  import PostgresParser
  import RedisParser
  import RedisStreams
  import RedisRoundTrip
  import MongoParser
  import MongoRoundTrip

  /** All that the parser finds in some chunks. */
  ghost function Found<S, E>(cut: Cutter<S, E>, limit: nat, state: S, chunks: seq<seq<Byte>>): seq<E> {
    FeedAll(cut, limit, state, [], chunks).out
  }

  lemma FoundGrows<S, E>(cut: Cutter<S, E>, limit: nat, state: S, chunks: seq<seq<Byte>>)
    requires chunks != []
    ensures Found(cut, limit, state, chunks[..|chunks| - 1]) <= Found(cut, limit, state, chunks)
  {
    var last := |chunks| - 1;
    Sniffer.FeedAllSnoc(cut, limit, state, [], chunks[..last], chunks[last]);
    assert chunks[..last] + [chunks[last]] == chunks;
  }

  /** How much of it is found in the last chunk. */
  ghost function NewIn<S, E>(cut: Cutter<S, E>, limit: nat, state: S, chunks: seq<seq<Byte>>): nat {
    if chunks == [] then 0
    else
      FoundGrows(cut, limit, state, chunks);
      |Found(cut, limit, state, chunks)| - |Found(cut, limit, state, chunks[..|chunks| - 1])|
  }

  /** Hook g parses with this cutter. */
  ghost predicate ParsesWith<S, E>(y: Yield, g: nat, cut: Cutter<S, E>, limit: nat, state: S) {
    forall chunks :: y(g, chunks) == NewIn(cut, limit, state, chunks)
  }

  /** Effect i of chunk m is the one found at position t. */
  ghost predicate Places<S, E>(
    cut: Cutter<S, E>, limit: nat, state: S, read: seq<seq<Byte>>, t: nat, m: nat, i: nat)
  {
    && m < |read| && t == |Found(cut, limit, state, read[..m])| + i
    && t < |Found(cut, limit, state, read[..m + 1])|
  }

  lemma {:induction false} PlaceExists<S, E>(
    cut: Cutter<S, E>, limit: nat, state: S, read: seq<seq<Byte>>, n: nat, t: nat) returns (m: nat, i: nat)
    requires 0 < n <= |read| && t < |Found(cut, limit, state, read[..n])|
    ensures Places(cut, limit, state, read, t, m, i)
    decreases n
  {
    assert |Found(cut, limit, state, [])| == 0 && read[..0] == [];
    if t < |Found(cut, limit, state, read[..n - 1])| {
      m, i := PlaceExists(cut, limit, state, read, n - 1, t);
    } else {
      m, i := n - 1, t - |Found(cut, limit, state, read[..n - 1])|;
    }
  }

  /** The effect found at position t, effect i of chunk m, is accounted for. */
  ghost predicate AccountedAt<S, E>(
    cut: Cutter<S, E>, limit: nat, state: S, read: seq<seq<Byte>>, s: State, r: R.Record, g: nat, c: nat, t: nat)
    requires Numbers(s) && g < |s.hooks|
  {
    exists m, i :: Places(cut, limit, state, read, t, m, i) && Accounted(s, r, g, Item(c, m, i))
  }

  /** Every effect that the parser finds in what a connection had read when the flush began. */
  lemma FoundIsAccounted<S, E>(
    y: Yield, run: seq<State>, steps: seq<Step>, j: nat, k: nat, q: nat, r: R.Record, g: nat, c: nat,
    cut: Cutter<S, E>, limit: nat, state: S, t: nat)
    requires IsRun(y, run, steps) && j < k < |run| && steps[j] == StartFlush(q)
    requires FlushedRecord(run[k], r, q) && ParsesWith(y, g, cut, limit, state)
    requires g < |run[j].hooks| && c in run[j].hooks[g].links
    requires t < |Found(cut, limit, state, run[j].hooks[g].links[c].data)|
    ensures Numbers(run[k]) && g < |run[k].hooks| && c in run[k].hooks[g].flush.conns
    ensures !run[k].hooks[g].flush.conns[c].lost ==>
      AccountedAt(cut, limit, state, run[j].hooks[g].links[c].data, run[k], r, g, c, t)
  {
    var read := run[j].hooks[g].links[c].data;
    assert read[..|read|] == read;
    var m, i := PlaceExists(cut, limit, state, read, |read|, t);
    ReadBeforeFlushIsAccounted(y, run, steps, j, k, q, r, g, c, m);
    var chunks := read[..m + 1];
    assert y(g, chunks) == NewIn(cut, limit, state, chunks) && chunks[..m] == read[..m];
  }

  /** From bytes to records. For a stream that the parser's strict cutter accepts, in whatever
      chunks it has been read and in every interleaving: each effect of its one-shot parse is
      accounted for in the record of a request whose flush began after it was read. */
  lemma BytesBeforeFlushAreAccounted<S(!new), E>(
    y: Yield, run: seq<State>, steps: seq<Step>, j: nat, k: nat, q: nat, r: R.Record, g: nat, c: nat,
    cut: Cutter<S, E>, strict: Cutter<S, E>, limit: nat, state: S, stream: seq<Byte>)
    requires IsRun(y, run, steps) && j < k < |run| && steps[j] == StartFlush(q)
    requires FlushedRecord(run[k], r, q) && ParsesWith(y, g, cut, limit, state)
    requires g < |run[j].hooks| && c in run[j].hooks[g].links
    requires Concat(run[j].hooks[g].links[c].data) == stream
    requires Stable(strict) && Refines(strict, cut, limit) && strict(state, []).More? && Run(strict, state, stream).ok
    ensures Numbers(run[k]) && g < |run[k].hooks| && c in run[k].hooks[g].flush.conns
    ensures Found(cut, limit, state, run[j].hooks[g].links[c].data) == Run(cut, state, stream).out
    ensures !run[k].hooks[g].flush.conns[c].lost ==>
      forall t: nat :: t < |Run(cut, state, stream).out| ==>
        AccountedAt(cut, limit, state, run[j].hooks[g].links[c].data, run[k], r, g, c, t)
  {
    var read := run[j].hooks[g].links[c].data;
    assert [] + Concat(read) == stream;
    ChunkingIsIrrelevant(cut, strict, limit, state, [], read);
    NotedAtStart(y, run, steps, j, k, q, g, c);
    RunInv(y, run, steps, k);
    forall t: nat | t < |Run(cut, state, stream).out| && !run[k].hooks[g].flush.conns[c].lost
      ensures AccountedAt(cut, limit, state, read, run[k], r, g, c, t)
    {
      FoundIsAccounted(y, run, steps, j, k, q, r, g, c, cut, limit, state, t);
    }
  }

  // ----- the four databases -----

  /** In a run, handler q began to flush the hooks at step j, when connection c of hook g had
      read stream; at k its record r has been made, and the connection has lost no write. */
  ghost predicate FlushedAfter(
    y: Yield, run: seq<State>, steps: seq<Step>, j: nat, k: nat, q: nat, r: R.Record, g: nat, c: nat, stream: seq<Byte>)
  {
    && IsRun(y, run, steps) && j < k < |run| && steps[j] == StartFlush(q) && FlushedRecord(run[k], r, q)
    && g < |run[j].hooks| && c in run[j].hooks[g].links && Concat(run[j].hooks[g].links[c].data) == stream
    && (g < |run[k].hooks| && c in run[k].hooks[g].flush.conns ==> !run[k].hooks[g].flush.conns[c].lost)
  }

  /** The parser finds exactly these effects in what had been read, and each is accounted for. */
  ghost predicate AllAccounted<S, E>(
    cut: Cutter<S, E>, limit: nat, state: S, read: seq<seq<Byte>>, s: State, r: R.Record, g: nat, c: nat,
    effects: seq<E>)
  {
    && Numbers(s) && g < |s.hooks| && Found(cut, limit, state, read) == effects
    && forall t: nat :: t < |effects| ==> AccountedAt(cut, limit, state, read, s, r, g, c, t)
  }

  lemma StreamIsAccounted<S(!new), E>(
    y: Yield, run: seq<State>, steps: seq<Step>, j: nat, k: nat, q: nat, r: R.Record, g: nat, c: nat,
    cut: Cutter<S, E>, strict: Cutter<S, E>, limit: nat, state: S, stream: seq<Byte>)
    requires FlushedAfter(y, run, steps, j, k, q, r, g, c, stream) && ParsesWith(y, g, cut, limit, state)
    requires Stable(strict) && Refines(strict, cut, limit) && strict(state, []).More? && Run(strict, state, stream).ok
    ensures AllAccounted(
      cut, limit, state, run[j].hooks[g].links[c].data, run[k], r, g, c, Run(cut, state, stream).out)
  {
    BytesBeforeFlushAreAccounted(y, run, steps, j, k, q, r, g, c, cut, strict, limit, state, stream);
  }

  /** MySQL packets that had been read: each of their statements. */
  lemma MySqlStatementsAreAccounted(
    y: Yield, run: seq<State>, steps: seq<Step>, j: nat, k: nat, q: nat, r: R.Record, g: nat, c: nat,
    packets: seq<MysqlParser.Packet>)
    requires ParsesWith(y, g, MysqlParser.CutPacket, MysqlParser.MAX_PACKET_SIZE, ())
    requires MysqlParser.Encodable(packets)
    requires FlushedAfter(y, run, steps, j, k, q, r, g, c, MysqlParser.EncodeAll(packets))
    ensures AllAccounted(MysqlParser.CutPacket, MysqlParser.MAX_PACKET_SIZE, (),
      run[j].hooks[g].links[c].data, run[k], r, g, c, MysqlParser.CapturedAll(packets))
  {
    MysqlParser.CutIsStable();
    MysqlParser.RunEncoded(packets);
    RunRefined(MysqlParser.CutBounded, MysqlParser.CutPacket, MysqlParser.MAX_PACKET_SIZE, (),
      MysqlParser.EncodeAll(packets));
    StreamIsAccounted(y, run, steps, j, k, q, r, g, c, MysqlParser.CutPacket, MysqlParser.CutBounded,
      MysqlParser.MAX_PACKET_SIZE, (), MysqlParser.EncodeAll(packets));
  }

  /** A Postgres startup message and messages. */
  lemma PostgresStatementsAreAccounted(
    y: Yield, run: seq<State>, steps: seq<Step>, j: nat, k: nat, q: nat, r: R.Record, g: nat, c: nat,
    startup: seq<Byte>, messages: seq<PostgresParser.Message>)
    requires ParsesWith(y, g, PostgresParser.CutMessage, PostgresParser.MAX_MESSAGE_LEN, true)
    requires PostgresParser.Valid(messages) && 4 <= |startup| <= PostgresParser.MAX_MESSAGE_LEN - 4
    requires FlushedAfter(y, run, steps, j, k, q, r, g, c,
      PostgresParser.EncodeStartup(startup) + PostgresParser.EncodeAll(messages))
    ensures AllAccounted(PostgresParser.CutMessage, PostgresParser.MAX_MESSAGE_LEN, true,
      run[j].hooks[g].links[c].data, run[k], r, g, c, PostgresParser.Statements(messages))
  {
    PostgresParser.CutIsStable();
    PostgresParser.RunStartup(startup, messages);
    StreamIsAccounted(y, run, steps, j, k, q, r, g, c, PostgresParser.CutMessage, PostgresParser.CutMessage,
      PostgresParser.MAX_MESSAGE_LEN, true,
      PostgresParser.EncodeStartup(startup) + PostgresParser.EncodeAll(messages));
  }

  /** Redis arrays and lines that fit the buffer limit. */
  lemma RedisCommandsAreAccounted(
    y: Yield, run: seq<State>, steps: seq<Step>, j: nat, k: nat, q: nat, r: R.Record, g: nat, c: nat,
    requests: seq<RedisRoundTrip.Request>)
    requires ParsesWith(y, g, RedisParser.CutCommand, RedisParser.BUFFER_LIMIT, RedisParser.Alive)
    requires RedisRoundTrip.Fits(requests)
    requires FlushedAfter(y, run, steps, j, k, q, r, g, c, RedisRoundTrip.EncodeAll(requests))
    ensures AllAccounted(RedisParser.CutCommand, RedisParser.BUFFER_LIMIT, RedisParser.Alive,
      run[j].hooks[g].links[c].data, run[k], r, g, c, RedisRoundTrip.Reported(requests))
  {
    RedisStreams.CutIsStable();
    BoundedIsStable(RedisParser.CutCommand, RedisParser.BUFFER_LIMIT);
    RedisRoundTrip.RunEncoded(requests);
    RunRefined(RedisStreams.Strict(), RedisParser.CutCommand, RedisParser.BUFFER_LIMIT, RedisParser.Alive,
      RedisRoundTrip.EncodeAll(requests));
    StreamIsAccounted(y, run, steps, j, k, q, r, g, c, RedisParser.CutCommand, RedisStreams.Strict(),
      RedisParser.BUFFER_LIMIT, RedisParser.Alive, RedisRoundTrip.EncodeAll(requests));
  }

  /** Mongo messages. */
  lemma MongoCommandsAreAccounted(
    y: Yield, run: seq<State>, steps: seq<Step>, j: nat, k: nat, q: nat, r: R.Record, g: nat, c: nat,
    messages: seq<MongoRoundTrip.Message>)
    requires ParsesWith(y, g, MongoParser.CutMessage, MongoParser.MAX_MESSAGE_LEN, ())
    requires MongoRoundTrip.ValidAll(messages)
    requires FlushedAfter(y, run, steps, j, k, q, r, g, c, MongoRoundTrip.EncodeAll(messages))
    ensures AllAccounted(MongoParser.CutMessage, MongoParser.MAX_MESSAGE_LEN, (),
      run[j].hooks[g].links[c].data, run[k], r, g, c, MongoRoundTrip.AllCommands(messages))
  {
    MongoRoundTrip.CutIsStable();
    MongoRoundTrip.RunEncoded(messages);
    StreamIsAccounted(y, run, steps, j, k, q, r, g, c, MongoParser.CutMessage, MongoParser.CutMessage,
      MongoParser.MAX_MESSAGE_LEN, (), MongoRoundTrip.EncodeAll(messages));
  }
}
