/** Comparing the side effects of a recorded request with those of its replay: SQL statements
    up to blanks and case, Mongo operations, Redis commands, and the number of all others. */
module SideEffectDiff {
  import opened Effects
  import opened AsciiText

  datatype DbType = MySql | Postgres | MongoDb | RedisDb | Other(name: Text)

  datatype Mongo = Mongo(collection: Text, operation: Text, database: Text)

  datatype Redis = Redis(command: Text, key: Text, args: seq<Text>)

  datatype SideEffect = SideEffect(
    isDatabase: bool, dbType: DbType, sql: Option<Text>, mongo: Option<Mongo>, redis: Option<Redis>)

  datatype Aspect = Collection | Operation | Database | Command | Key

  datatype SideDiff =
    | SqlCount(expected: nat, actual: nat)
    | SqlDiffers(index: nat, sql: Text, replayedSql: Text)
    | MongoCount(expected: nat, actual: nat)
    | RedisCount(expected: nat, actual: nat)
    | AspectDiffers(index: nat, aspect: Aspect, text: Text, replayedText: Text)
    | ArgsDiffer(index: nat, args: seq<Text>, replayedArgs: seq<Text>)
    | ResidualCount(expected: nat, actual: nat)

  const SQL_TYPES: set<DbType> := {MySql, Postgres}
  const HANDLED: set<DbType> := {MySql, Postgres, MongoDb, RedisDb}

  // ----- SQL text -----

  function NormalizeSql(sql: Text): Text {
    ToUpper(Join(Fields(TrimSpace(sql))))
  }

  /** The tokens of a statement, in upper case. */
  function Tokens(sql: Text): seq<Text> {
    UpperWords(Fields(sql))
  }

  lemma NormalizedTokens(sql: Text)
    ensures NormalizeSql(sql) == Join(Tokens(sql)) && AllWords(Tokens(sql))
  {
    FieldsOfTrimSpace(sql);
    FieldsAreWords(sql);
    UpperOfJoin(Fields(sql));
    UpperKeepsWords(Fields(sql));
  }

  /** As many words, which have the same letters in turn. */
  predicate SameStatement(a: Text, b: Text) {
    |Fields(a)| == |Fields(b)| && forall i :: 0 <= i < |Fields(a)| ==> SameLetters(Fields(a)[i], Fields(b)[i])
  }

  /** Two statements normalize alike exactly when they have the same blank-separated words up to
      the case of their letters. */
  lemma NormalizeEqualIffSameStatement(a: Text, b: Text)
    ensures NormalizeSql(a) == NormalizeSql(b) <==> SameStatement(a, b)
  {
    NormalizedTokens(a);
    NormalizedTokens(b);
    if NormalizeSql(a) == NormalizeSql(b) { JoinIsInjective(Tokens(a), Tokens(b)); }
    forall i | 0 <= i < |Fields(a)| && i < |Fields(b)|
      ensures ToUpper(Fields(a)[i]) == ToUpper(Fields(b)[i]) <==> SameLetters(Fields(a)[i], Fields(b)[i])
    {
      UpperEqualIffSameLetters(Fields(a)[i], Fields(b)[i]);
    }
    if Tokens(a) == Tokens(b) {
      forall i | 0 <= i < |Fields(a)| ensures SameLetters(Fields(a)[i], Fields(b)[i]) {
        assert Tokens(a)[i] == Tokens(b)[i];
      }
    }
  }

  /** Words spread out in two ways, and in any case: the statements normalize alike. */
  lemma SpreadNormalizesAlike(gaps: seq<Text>, words: seq<Text>, gaps': seq<Text>, words': seq<Text>)
    requires WellSpread(gaps, words) && WellSpread(gaps', words')
    ensures NormalizeSql(Spread(gaps, words)) == NormalizeSql(Spread(gaps', words')) <==>
      |words| == |words'| && forall i :: 0 <= i < |words| ==> SameLetters(words[i], words'[i])
  {
    FieldsOfSpread(gaps, words);
    FieldsOfSpread(gaps', words');
    NormalizeEqualIffSameStatement(Spread(gaps, words), Spread(gaps', words'));
  }

  // ----- what is compared -----

  predicate IsSql(e: SideEffect, types: set<DbType>) {
    e.isDatabase && e.sql.Some? && e.dbType in types
  }

  predicate IsMongo(e: SideEffect) {
    e.isDatabase && e.dbType == MongoDb && e.mongo.Some?
  }

  predicate IsRedis(e: SideEffect) {
    e.isDatabase && e.dbType == RedisDb && e.redis.Some?
  }

  predicate IsResidual(e: SideEffect, handled: set<DbType>) {
    !e.isDatabase || e.dbType !in handled
  }

  function Sqls(effects: seq<SideEffect>, types: set<DbType>): seq<Text> {
    if effects == [] then []
    else
      var before, last := Sqls(effects[..|effects| - 1], types), effects[|effects| - 1];
      if IsSql(last, types) then before + [last.sql.value] else before
  }

  function Mongos(effects: seq<SideEffect>): seq<Mongo> {
    if effects == [] then []
    else
      var before, last := Mongos(effects[..|effects| - 1]), effects[|effects| - 1];
      if IsMongo(last) then before + [last.mongo.value] else before
  }

  function Redises(effects: seq<SideEffect>): seq<Redis> {
    if effects == [] then []
    else
      var before, last := Redises(effects[..|effects| - 1]), effects[|effects| - 1];
      if IsRedis(last) then before + [last.redis.value] else before
  }

  function Residuals(effects: seq<SideEffect>, handled: set<DbType>): nat {
    if effects == [] then 0
    else Residuals(effects[..|effects| - 1], handled) + if IsResidual(effects[|effects| - 1], handled) then 1 else 0
  }

  method FilterByType(effects: seq<SideEffect>, types: set<DbType>) returns (result: seq<Text>)
    ensures result == Sqls(effects, types)
  {
    result := [];
    for i := 0 to |effects|
      invariant result == Sqls(effects[..i], types)
    {
      assert effects[..i + 1][..i] == effects[..i];
      if effects[i].isDatabase && effects[i].sql.Some? && effects[i].dbType in types {
        result := result + [effects[i].sql.value];
      }
    }
    assert effects[..|effects|] == effects;
  }

  method FilterMongoEffects(effects: seq<SideEffect>) returns (result: seq<Mongo>)
    ensures result == Mongos(effects)
  {
    result := [];
    for i := 0 to |effects|
      invariant result == Mongos(effects[..i])
    {
      assert effects[..i + 1][..i] == effects[..i];
      if effects[i].isDatabase && effects[i].dbType == MongoDb && effects[i].mongo.Some? {
        result := result + [effects[i].mongo.value];
      }
    }
    assert effects[..|effects|] == effects;
  }

  method FilterRedisEffects(effects: seq<SideEffect>) returns (result: seq<Redis>)
    ensures result == Redises(effects)
  {
    result := [];
    for i := 0 to |effects|
      invariant result == Redises(effects[..i])
    {
      assert effects[..i + 1][..i] == effects[..i];
      if effects[i].isDatabase && effects[i].dbType == RedisDb && effects[i].redis.Some? {
        result := result + [effects[i].redis.value];
      }
    }
    assert effects[..|effects|] == effects;
  }

  method CountResidualSideEffects(effects: seq<SideEffect>, handled: set<DbType>) returns (count: nat)
    ensures count == Residuals(effects, handled)
  {
    count := 0;
    for i := 0 to |effects|
      invariant count == Residuals(effects[..i], handled)
    {
      assert effects[..i + 1][..i] == effects[..i];
      if !effects[i].isDatabase {
        count := count + 1;
        continue;
      }
      if effects[i].dbType !in handled {
        count := count + 1;
      }
    }
    assert effects[..|effects|] == effects;
  }

  // ----- the comparison -----

  function If(condition: bool, d: SideDiff): seq<SideDiff> {
    if condition then [d] else []
  }

  function SqlPair(i: nat, o: Text, r: Text): seq<SideDiff> {
    If(NormalizeSql(o) != NormalizeSql(r), SqlDiffers(i, o, r))
  }

  function MongoPair(i: nat, o: Mongo, r: Mongo): seq<SideDiff> {
    If(o.collection != r.collection, AspectDiffers(i, Collection, o.collection, r.collection))
    + If(o.operation != r.operation, AspectDiffers(i, Operation, o.operation, r.operation))
    + If(o.database != r.database, AspectDiffers(i, Database, o.database, r.database))
  }

  function RedisPair(i: nat, o: Redis, r: Redis): seq<SideDiff> {
    If(o.command != r.command, AspectDiffers(i, Command, o.command, r.command))
    + If(o.key != r.key, AspectDiffers(i, Key, o.key, r.key))
    + If(o.args != r.args, ArgsDiffer(i, o.args, r.args))
  }

  /** The differences of the first n pairs, in order. */
  function Pairs<T>(compare: (nat, T, T) -> seq<SideDiff>, o: seq<T>, r: seq<T>, n: nat): seq<SideDiff>
    requires n <= |o| && n <= |r|
  {
    if n == 0 then [] else Pairs(compare, o, r, n - 1) + compare(n - 1, o[n - 1], r[n - 1])
  }

  function Min(a: nat, b: nat): nat {
    if b < a then b else a
  }

  /** A difference in number, then those of the pairs. */
  function Report<T>(compare: (nat, T, T) -> seq<SideDiff>, count: SideDiff, o: seq<T>, r: seq<T>): seq<SideDiff> {
    If(|o| != |r|, count) + Pairs(compare, o, r, Min(|o|, |r|))
  }

  function SqlReport(o: seq<Text>, r: seq<Text>): seq<SideDiff> {
    Report(SqlPair, SqlCount(|o|, |r|), o, r)
  }

  function MongoReport(o: seq<Mongo>, r: seq<Mongo>): seq<SideDiff> {
    Report(MongoPair, MongoCount(|o|, |r|), o, r)
  }

  function RedisReport(o: seq<Redis>, r: seq<Redis>): seq<SideDiff> {
    Report(RedisPair, RedisCount(|o|, |r|), o, r)
  }

  function ResidualReport(o: nat, r: nat): seq<SideDiff> {
    If(o != r, ResidualCount(o, r))
  }

  /** The loop that the three comparisons have in common. */
  method CompareInOrder<T>(compare: (nat, T, T) -> seq<SideDiff>, count: SideDiff, orig: seq<T>, replay: seq<T>)
    returns (diffs: seq<SideDiff>)
    ensures diffs == Report(compare, count, orig, replay)
  {
    diffs := [];
    if |orig| != |replay| {
      diffs := diffs + [count];
    }
    ghost var counts := diffs;
    var minLen := |orig|;
    if |replay| < minLen {
      minLen := |replay|;
    }
    assert counts + [] == counts;
    for i := 0 to minLen
      invariant diffs == counts + Pairs(compare, orig, replay, i)
    {
      PairsSnoc(counts, compare, orig, replay, i);
      diffs := diffs + compare(i, orig[i], replay[i]);
    }
  }

  lemma PairsSnoc<T>(
    before: seq<SideDiff>, compare: (nat, T, T) -> seq<SideDiff>, o: seq<T>, r: seq<T>, i: nat)
    requires i < |o| && i < |r|
    ensures before + Pairs(compare, o, r, i + 1) == before + Pairs(compare, o, r, i) + compare(i, o[i], r[i])
  {
  }

  method CompareDbSideEffects(original: seq<SideEffect>, replay: seq<SideEffect>) returns (diffs: seq<SideDiff>)
    ensures diffs == SqlReport(Sqls(original, SQL_TYPES), Sqls(replay, SQL_TYPES))
  {
    var origSql := FilterByType(original, SQL_TYPES);
    var replaySql := FilterByType(replay, SQL_TYPES);
    diffs := CompareInOrder(SqlPair, SqlCount(|origSql|, |replaySql|), origSql, replaySql);
  }

  method CompareMongoSideEffects(original: seq<SideEffect>, replay: seq<SideEffect>) returns (diffs: seq<SideDiff>)
    ensures diffs == MongoReport(Mongos(original), Mongos(replay))
  {
    var origMongo := FilterMongoEffects(original);
    var replayMongo := FilterMongoEffects(replay);
    diffs := CompareInOrder(MongoPair, MongoCount(|origMongo|, |replayMongo|), origMongo, replayMongo);
  }

  method CompareRedisSideEffects(original: seq<SideEffect>, replay: seq<SideEffect>) returns (diffs: seq<SideDiff>)
    ensures diffs == RedisReport(Redises(original), Redises(replay))
  {
    var origRedis := FilterRedisEffects(original);
    var replayRedis := FilterRedisEffects(replay);
    diffs := CompareInOrder(RedisPair, RedisCount(|origRedis|, |replayRedis|), origRedis, replayRedis);
  }

  /** All differences of two lists of side effects. */
  function SideEffectDiffs(original: seq<SideEffect>, replay: seq<SideEffect>): seq<SideDiff> {
    SqlReport(Sqls(original, SQL_TYPES), Sqls(replay, SQL_TYPES))
    + MongoReport(Mongos(original), Mongos(replay))
    + RedisReport(Redises(original), Redises(replay))
    + ResidualReport(Residuals(original, HANDLED), Residuals(replay, HANDLED))
  }

  /** The SQL statements agree position by position as words up to case, the Mongo operations
      and the Redis commands agree position by position, and as many other effects happened. */
  ghost predicate Agree(original: seq<SideEffect>, replay: seq<SideEffect>) {
    && SameStatements(Sqls(original, SQL_TYPES), Sqls(replay, SQL_TYPES))
    && Mongos(original) == Mongos(replay)
    && Redises(original) == Redises(replay)
    && Residuals(original, HANDLED) == Residuals(replay, HANDLED)
  }

  ghost predicate SameStatements(o: seq<Text>, r: seq<Text>) {
    |o| == |r| && forall i :: 0 <= i < |o| ==> SameStatement(o[i], r[i])
  }

  method CompareSideEffects(original: seq<SideEffect>, replay: seq<SideEffect>) returns (diffs: seq<SideDiff>)
    ensures diffs == SideEffectDiffs(original, replay)
    ensures diffs == [] <==> Agree(original, replay)
  {
    var db := CompareDbSideEffects(original, replay);
    var mongo := CompareMongoSideEffects(original, replay);
    var redis := CompareRedisSideEffects(original, replay);
    SideEffectsSilentIff(original, replay);
    diffs := db + mongo + redis;
    var otherOriginal := CountResidualSideEffects(original, HANDLED);
    var otherReplay := CountResidualSideEffects(replay, HANDLED);
    if otherOriginal != otherReplay {
      diffs := diffs + [ResidualCount(otherOriginal, otherReplay)];
    }
  }

  /** Nothing is reported exactly when the side effects agree. */
  lemma SideEffectsSilentIff(original: seq<SideEffect>, replay: seq<SideEffect>)
    ensures SideEffectDiffs(original, replay) == [] <==> Agree(original, replay)
  {
    SqlSilent(Sqls(original, SQL_TYPES), Sqls(replay, SQL_TYPES));
    MongoSilent(Mongos(original), Mongos(replay));
    RedisSilent(Redises(original), Redises(replay));
  }

  lemma {:induction false} PairsSilent<T>(compare: (nat, T, T) -> seq<SideDiff>, o: seq<T>, r: seq<T>, n: nat)
    requires n <= |o| && n <= |r|
    ensures Pairs(compare, o, r, n) == [] <==> forall i :: 0 <= i < n ==> compare(i, o[i], r[i]) == []
    decreases n
  {
    if n > 0 { PairsSilent(compare, o, r, n - 1); }
  }

  lemma SqlSilent(o: seq<Text>, r: seq<Text>)
    ensures SqlReport(o, r) == [] <==> SameStatements(o, r)
  {
    PairsSilent(SqlPair, o, r, Min(|o|, |r|));
    forall i | 0 <= i < |o| && i < |r| ensures SqlPair(i, o[i], r[i]) == [] <==> SameStatement(o[i], r[i]) {
      NormalizeEqualIffSameStatement(o[i], r[i]);
    }
  }

  lemma MongoSilent(o: seq<Mongo>, r: seq<Mongo>)
    ensures MongoReport(o, r) == [] <==> o == r
  {
    PairsSilent(MongoPair, o, r, Min(|o|, |r|));
  }

  lemma RedisSilent(o: seq<Redis>, r: seq<Redis>)
    ensures RedisReport(o, r) == [] <==> o == r
  {
    PairsSilent(RedisPair, o, r, Min(|o|, |r|));
  }

  // ----- what is selected -----

  /** The statements of effects in a row are those of the first followed by those of the others;
      one effect has its statement if it is of MySQL or Postgres, and has one. */
  lemma SqlsInTurn(a: seq<SideEffect>, b: seq<SideEffect>, x: SideEffect)
    ensures Sqls(a + b, SQL_TYPES) == Sqls(a, SQL_TYPES) + Sqls(b, SQL_TYPES)
    ensures Sqls([x], SQL_TYPES) ==
      if x.isDatabase && x.sql.Some? && (x.dbType == MySql || x.dbType == Postgres) then [x.sql.value] else []
  {
    SqlsSplit(a, b);
    assert [x][..0] == [];
  }

  lemma {:induction false} SqlsSplit(a: seq<SideEffect>, b: seq<SideEffect>)
    ensures Sqls(a + b, SQL_TYPES) == Sqls(a, SQL_TYPES) + Sqls(b, SQL_TYPES)
    decreases |b|
  {
    if b == [] {
      assert a + b == a;
    } else {
      assert (a + b)[..|a + b| - 1] == a + b[..|b| - 1];
      SqlsSplit(a, b[..|b| - 1]);
    }
  }

  /** So do Mongo operations, */
  lemma MongosInTurn(a: seq<SideEffect>, b: seq<SideEffect>, x: SideEffect)
    ensures Mongos(a + b) == Mongos(a) + Mongos(b)
    ensures Mongos([x]) == if x.isDatabase && x.dbType == MongoDb && x.mongo.Some? then [x.mongo.value] else []
  {
    MongosSplit(a, b);
    assert [x][..0] == [];
  }

  lemma {:induction false} MongosSplit(a: seq<SideEffect>, b: seq<SideEffect>)
    ensures Mongos(a + b) == Mongos(a) + Mongos(b)
    decreases |b|
  {
    if b == [] {
      assert a + b == a;
    } else {
      assert (a + b)[..|a + b| - 1] == a + b[..|b| - 1];
      MongosSplit(a, b[..|b| - 1]);
    }
  }

  /** Redis commands, */
  lemma RedisesInTurn(a: seq<SideEffect>, b: seq<SideEffect>, x: SideEffect)
    ensures Redises(a + b) == Redises(a) + Redises(b)
    ensures Redises([x]) == if x.isDatabase && x.dbType == RedisDb && x.redis.Some? then [x.redis.value] else []
  {
    RedisesSplit(a, b);
    assert [x][..0] == [];
  }

  lemma {:induction false} RedisesSplit(a: seq<SideEffect>, b: seq<SideEffect>)
    ensures Redises(a + b) == Redises(a) + Redises(b)
    decreases |b|
  {
    if b == [] {
      assert a + b == a;
    } else {
      assert (a + b)[..|a + b| - 1] == a + b[..|b| - 1];
      RedisesSplit(a, b[..|b| - 1]);
    }
  }

  /** and the number of effects that are of none of the four databases. */
  lemma ResidualsInTurn(a: seq<SideEffect>, b: seq<SideEffect>, x: SideEffect)
    ensures Residuals(a + b, HANDLED) == Residuals(a, HANDLED) + Residuals(b, HANDLED)
    ensures Residuals([x], HANDLED) ==
      if x.isDatabase && (x.dbType == MySql || x.dbType == Postgres || x.dbType == MongoDb || x.dbType == RedisDb)
      then 0 else 1
  {
    ResidualsSplit(a, b);
    assert [x][..0] == [];
  }

  lemma {:induction false} ResidualsSplit(a: seq<SideEffect>, b: seq<SideEffect>)
    ensures Residuals(a + b, HANDLED) == Residuals(a, HANDLED) + Residuals(b, HANDLED)
    decreases |b|
  {
    if b == [] {
      assert a + b == a;
    } else {
      assert (a + b)[..|a + b| - 1] == a + b[..|b| - 1];
      ResidualsSplit(a, b[..|b| - 1]);
    }
  }

  // ----- what is reported -----

  /** What a reported difference says of the two lists. */
  ghost predicate IsTrue(o: seq<SideEffect>, r: seq<SideEffect>, d: SideDiff) {
    var os, rs := Sqls(o, SQL_TYPES), Sqls(r, SQL_TYPES);
    var om, rm := Mongos(o), Mongos(r);
    var oc, rc := Redises(o), Redises(r);
    match d
    case SqlCount(n, m) => n == |os| && m == |rs| && n != m
    case SqlDiffers(i, x, y) => i < |os| && i < |rs| && x == os[i] && y == rs[i] && !SameStatement(x, y)
    case MongoCount(n, m) => n == |om| && m == |rm| && n != m
    case RedisCount(n, m) => n == |oc| && m == |rc| && n != m
    case AspectDiffers(i, aspect, x, y) =>
      x != y &&
      (match aspect
       case Collection => i < |om| && i < |rm| && x == om[i].collection && y == rm[i].collection
       case Operation => i < |om| && i < |rm| && x == om[i].operation && y == rm[i].operation
       case Database => i < |om| && i < |rm| && x == om[i].database && y == rm[i].database
       case Command => i < |oc| && i < |rc| && x == oc[i].command && y == rc[i].command
       case Key => i < |oc| && i < |rc| && x == oc[i].key && y == rc[i].key)
    case ArgsDiffer(i, x, y) => i < |oc| && i < |rc| && x == oc[i].args && y == rc[i].args && x != y
    case ResidualCount(n, m) => n == Residuals(o, HANDLED) && m == Residuals(r, HANDLED) && n != m
  }

  lemma {:induction false} InPairs<T>(compare: (nat, T, T) -> seq<SideDiff>, o: seq<T>, r: seq<T>, n: nat, d: SideDiff)
    requires n <= |o| && n <= |r|
    ensures d in Pairs(compare, o, r, n) <==> exists i :: 0 <= i < n && d in compare(i, o[i], r[i])
    decreases n
  {
    if n > 0 { InPairs(compare, o, r, n - 1, d); }
  }

  lemma InReport<T>(compare: (nat, T, T) -> seq<SideDiff>, count: SideDiff, o: seq<T>, r: seq<T>, d: SideDiff)
    ensures d in Report(compare, count, o, r) <==>
      (|o| != |r| && d == count) || exists i :: 0 <= i < |o| && i < |r| && d in compare(i, o[i], r[i])
  {
    InPairs(compare, o, r, Min(|o|, |r|), d);
  }

  lemma InSqlReport(o: seq<Text>, r: seq<Text>, d: SideDiff)
    ensures d in SqlReport(o, r) <==>
      (match d
       case SqlCount(n, m) => n == |o| && m == |r| && n != m
       case SqlDiffers(i, x, y) => i < |o| && i < |r| && x == o[i] && y == r[i] && !SameStatement(x, y)
       case _ => false)
  {
    InReport(SqlPair, SqlCount(|o|, |r|), o, r, d);
    forall i | 0 <= i < |o| && i < |r| ensures SqlPair(i, o[i], r[i]) == [] <==> SameStatement(o[i], r[i]) {
      NormalizeEqualIffSameStatement(o[i], r[i]);
    }
  }

  lemma InMongoReport(o: seq<Mongo>, r: seq<Mongo>, d: SideDiff)
    ensures d in MongoReport(o, r) <==>
      (match d
       case MongoCount(n, m) => n == |o| && m == |r| && n != m
       case AspectDiffers(i, aspect, x, y) =>
         i < |o| && i < |r| && x != y &&
         (match aspect
          case Collection => x == o[i].collection && y == r[i].collection
          case Operation => x == o[i].operation && y == r[i].operation
          case Database => x == o[i].database && y == r[i].database
          case _ => false)
       case _ => false)
  {
    InReport(MongoPair, MongoCount(|o|, |r|), o, r, d);
    if d.AspectDiffers? && d.index < |o| && d.index < |r| { InMongoPair(d.index, o[d.index], r[d.index], d); }
    forall i | 0 <= i < |o| && i < |r| && d in MongoPair(i, o[i], r[i]) ensures d.AspectDiffers? && d.index == i {
      InMongoPair(i, o[i], r[i], d);
    }
  }

  lemma InMongoPair(i: nat, o: Mongo, r: Mongo, d: SideDiff)
    ensures d in MongoPair(i, o, r) <==>
      || (o.collection != r.collection && d == AspectDiffers(i, Collection, o.collection, r.collection))
      || (o.operation != r.operation && d == AspectDiffers(i, Operation, o.operation, r.operation))
      || (o.database != r.database && d == AspectDiffers(i, Database, o.database, r.database))
  {
  }

  lemma InRedisReport(o: seq<Redis>, r: seq<Redis>, d: SideDiff)
    ensures d in RedisReport(o, r) <==>
      (match d
       case RedisCount(n, m) => n == |o| && m == |r| && n != m
       case AspectDiffers(i, aspect, x, y) =>
         i < |o| && i < |r| && x != y &&
         (match aspect
          case Command => x == o[i].command && y == r[i].command
          case Key => x == o[i].key && y == r[i].key
          case _ => false)
       case ArgsDiffer(i, x, y) => i < |o| && i < |r| && x == o[i].args && y == r[i].args && x != y
       case _ => false)
  {
    InReport(RedisPair, RedisCount(|o|, |r|), o, r, d);
    if (d.AspectDiffers? || d.ArgsDiffer?) && d.index < |o| && d.index < |r| {
      InRedisPair(d.index, o[d.index], r[d.index], d);
    }
    forall i | 0 <= i < |o| && i < |r| && d in RedisPair(i, o[i], r[i])
      ensures (d.AspectDiffers? || d.ArgsDiffer?) && d.index == i
    {
      InRedisPair(i, o[i], r[i], d);
    }
  }

  lemma InRedisPair(i: nat, o: Redis, r: Redis, d: SideDiff)
    ensures d in RedisPair(i, o, r) <==>
      || (o.command != r.command && d == AspectDiffers(i, Command, o.command, r.command))
      || (o.key != r.key && d == AspectDiffers(i, Key, o.key, r.key))
      || (o.args != r.args && d == ArgsDiffer(i, o.args, r.args))
  {
  }

  /** Exactly what is true is reported. */
  lemma ReportedIffTrue(o: seq<SideEffect>, r: seq<SideEffect>, d: SideDiff)
    ensures d in SideEffectDiffs(o, r) <==> IsTrue(o, r, d)
  {
    InSqlReport(Sqls(o, SQL_TYPES), Sqls(r, SQL_TYPES), d);
    InMongoReport(Mongos(o), Mongos(r), d);
    InRedisReport(Redises(o), Redises(r), d);
  }
}
