/** Whole connections of each database: a client sends encoded messages, the proxy relays them
    and sniffs their statements, however the bytes arrive and whenever flushes are asked for. */
module SniffedTraffic {
  import opened Framing
  import opened Sniffer
  import MysqlParser
  import PostgresParser
  import RedisParser
  import RedisStreams
  import RedisRoundTrip
  import MongoParser
  import MongoRoundTrip

  /** The bytes the proxy reads from the client. */
  ghost function Sent(turns: seq<Turn>): seq<Byte> {
    Concat(ChunksRead(Performed(turns)))
  }

  /** The server gets the stream, each acknowledged flush has fed all of it that was read, and
      the effects emitted and dropped are together exactly these. */
  ghost predicate Sniffed<S(!new), E(!new)>(conn: Connection<S, E>, stream: seq<Byte>, effects: seq<E>)
    reads conn
  {
    && conn.forwarded == stream && CaughtUp(conn.acks)
    && Offered(conn.offers) == effects
    && multiset(Taken(conn.offers, true)) + multiset(Taken(conn.offers, false)) == multiset(effects)
  }

  method MySqlConnection(turns: seq<Turn>, room: nat -> bool, ghost packets: seq<MysqlParser.Packet>)
    returns (conn: Connection<(), MysqlParser.Query>)
    requires NoWriteFailed(Performed(turns)) && MysqlParser.Encodable(packets)
    requires Sent(turns) == MysqlParser.EncodeAll(packets)
    ensures Sniffed(conn, MysqlParser.EncodeAll(packets), MysqlParser.CapturedAll(packets))
  {
    MysqlParser.CutIsStable();
    MysqlParser.RunEncoded(packets);
    RunRefined(MysqlParser.CutBounded, MysqlParser.CutPacket, MysqlParser.MAX_PACKET_SIZE, (), Sent(turns));
    conn := HandleConn(MysqlParser.CutPacket, MysqlParser.MAX_PACKET_SIZE, (), room, turns, MysqlParser.CutBounded);
  }

  method PostgresConnection(
    turns: seq<Turn>, room: nat -> bool, ghost startup: seq<Byte>, ghost messages: seq<PostgresParser.Message>)
    returns (conn: Connection<bool, PostgresParser.Query>)
    requires NoWriteFailed(Performed(turns)) && PostgresParser.Valid(messages)
    requires 4 <= |startup| <= PostgresParser.MAX_MESSAGE_LEN - 4
    requires Sent(turns) == PostgresParser.EncodeStartup(startup) + PostgresParser.EncodeAll(messages)
    ensures Sniffed(conn, Sent(turns), PostgresParser.Statements(messages))
  {
    PostgresParser.CutIsStable();
    PostgresParser.RunStartup(startup, messages);
    conn := HandleConn(PostgresParser.CutMessage, PostgresParser.MAX_MESSAGE_LEN, true, room, turns,
      PostgresParser.CutMessage);
  }

  method RedisConnection(turns: seq<Turn>, room: nat -> bool, ghost requests: seq<RedisRoundTrip.Request>)
    returns (conn: Connection<RedisParser.Health, RedisParser.Command>)
    requires NoWriteFailed(Performed(turns)) && RedisRoundTrip.Fits(requests)
    requires Sent(turns) == RedisRoundTrip.EncodeAll(requests)
    ensures Sniffed(conn, RedisRoundTrip.EncodeAll(requests), RedisRoundTrip.Reported(requests))
  {
    RedisStreams.CutIsStable();
    BoundedIsStable(RedisParser.CutCommand, RedisParser.BUFFER_LIMIT);
    RedisRoundTrip.RunEncoded(requests);
    RunRefined(RedisStreams.Strict(), RedisParser.CutCommand, RedisParser.BUFFER_LIMIT, RedisParser.Alive, Sent(turns));
    conn := HandleConn(RedisParser.CutCommand, RedisParser.BUFFER_LIMIT, RedisParser.Alive, room, turns,
      RedisStreams.Strict());
  }

  method MongoConnection(turns: seq<Turn>, room: nat -> bool, ghost messages: seq<MongoRoundTrip.Message>)
    returns (conn: Connection<(), MongoParser.Command>)
    requires NoWriteFailed(Performed(turns)) && MongoRoundTrip.ValidAll(messages)
    requires Sent(turns) == MongoRoundTrip.EncodeAll(messages)
    ensures Sniffed(conn, MongoRoundTrip.EncodeAll(messages), MongoRoundTrip.AllCommands(messages))
  {
    MongoRoundTrip.CutIsStable();
    MongoRoundTrip.RunEncoded(messages);
    conn := HandleConn(MongoParser.CutMessage, MongoParser.MAX_MESSAGE_LEN, (), room, turns, MongoParser.CutMessage);
  }
}
