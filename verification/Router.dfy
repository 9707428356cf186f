/** The shard router: which nodes a query is sent to. */
module Router {
  import opened Common
  import Text
  import Cql

  const FNV_OFFSET: bv64 := 14695981039346656037

  const FNV_PRIME: bv64 := 1099511628211

  function Byte(c: char): bv8 {
    (c as int % 256) as bv8
  }

  function XorMultiply(h: bv64, x: bv8): bv64 {
    (h ^ (x as bv64)) * FNV_PRIME
  }

  /** One round of the 64-bit FNV-1a hash. */
  function Mix(h: bv64, c: char): bv64 {
    XorMultiply(h, Byte(c))
  }

  function Hash(s: string): bv64 {
    if s == [] then FNV_OFFSET else Mix(Hash(s[..|s| - 1]), s[|s| - 1])
  }

  // ---------------------------------------------------------------- what the hash keeps apart

  /** The last byte of a hash. */
  function Low(h: bv64): bv8 {
    (h & 0xff) as bv8
  }

  function NextLow(h: bv8, x: bv8): bv8 {
    (h ^ x) * 0xb3
  }

  lemma LowOfRound(h: bv64, x: bv8)
    ensures Low(XorMultiply(h, x)) == NextLow(Low(h), x)
  {
  }

  lemma NextLowApart(h: bv8, x: bv8, g: bv8, y: bv8)
    requires NextLow(h, x) == NextLow(g, y) && (h == g || x == y)
    ensures h == g && x == y
  {
  }

  lemma CodeOf(c: char)
    requires c as int < 256
    ensures Byte(c) as int == c as int
  {
  }

  lemma Codes(c: char, d: char)
    requires c as int < 256 && d as int < 256 && Byte(c) == Byte(d)
    ensures c == d
  {
    CodeOf(c);
    CodeOf(d);
    hide Byte;
  }

  lemma HashOf(s: string, c: char)
    ensures Hash([]) == FNV_OFFSET && Hash(s + [c]) == Mix(Hash(s), c)
    ensures Low(Hash(s + [c])) == NextLow(Low(Hash(s)), Byte(c))
  {
    assert (s + [c])[..|s|] == s;
    hide Low, NextLow, XorMultiply, Byte;
    LowOfRound(Hash(s), Byte(c));
  }

  lemma {:induction false} SuffixKeepsApart(a: string, b: string, tail: string)
    requires Low(Hash(a)) != Low(Hash(b))
    ensures Low(Hash(a + tail)) != Low(Hash(b + tail))
  {
    hide *;
    if tail == [] {
      assert a + tail == a && b + tail == b;
    } else {
      var init, c := tail[..|tail| - 1], tail[|tail| - 1];
      SuffixKeepsApart(a, b, init);
      HashOf(a + init, c);
      HashOf(b + init, c);
      assert a + tail == (a + init) + [c] && b + tail == (b + init) + [c];
      if Low(Hash(a + tail)) == Low(Hash(b + tail)) {
        NextLowApart(Low(Hash(a + init)), Byte(c), Low(Hash(b + init)), Byte(c));
        assert false;
      }
    }
  }

  /** Names that differ in one character have hashes that differ in their last byte. */
  lemma OneCharacterApart(front: string, c: char, d: char, tail: string)
    requires c != d && c as int < 256 && d as int < 256
    ensures Low(Hash(front + [c] + tail)) != Low(Hash(front + [d] + tail))
    ensures Hash(front + [c] + tail) != Hash(front + [d] + tail)
  {
    HashOf(front, c);
    HashOf(front, d);
    if Byte(c) == Byte(d) { Codes(c, d); }
    hide Hash, Mix, Low, NextLow, Byte;
    if Low(Hash(front + [c])) == Low(Hash(front + [d])) {
      NextLowApart(Low(Hash(front)), Byte(c), Low(Hash(front)), Byte(d));
    }
    SuffixKeepsApart(front + [c], front + [d], tail);
  }

  lemma PublishedRounds()
    ensures XorMultiply(0xcbf29ce484222325, 97) == 0xaf63dc4c8601ec8c
    ensures XorMultiply(0xaf63dc4c8601ec8c, 98) == 0x089c4407b545986a
  {
  }

  lemma LetterA()
    ensures Byte('a') == 97
  {
    assert 'a' as int % 256 == 97;
  }

  lemma LetterB()
    ensures Byte('b') == 98
  {
    assert 'b' as int % 256 == 98;
  }

  /** Published values of the 64-bit FNV-1a hash. */
  lemma PublishedHashes()
    ensures Hash("") == 0xcbf29ce484222325 && Hash("a") == 0xaf63dc4c8601ec8c && Hash("ab") == 0x089c4407b545986a
  {
    LetterA();
    LetterB();
    PublishedRounds();
    HashOf("", 'a');
    HashOf("a", 'b');
    hide Hash, XorMultiply, Byte, Low, NextLow;
    assert "" + ['a'] == "a" && "a" + ['b'] == "ab";
  }

  method HashString(s: string) returns (h: bv64)
    ensures h == Hash(s)
  {
    hide Mix;
    h := FNV_OFFSET;
    for i := 0 to |s|
      invariant h == Hash(s[..i])
    {
      h := Mix(h, s[i]);
      assert s[..i + 1][..i] == s[..i];
    }
    assert s[..|s|] == s;
  }

  /** The shard that owns a table, among n. */
  function Owner(table: string, n: nat): (shard: nat)
    requires n > 0
    ensures shard < n
  {
    hide Hash;
    (Hash(table) as nat) % n
  }

  lemma OwnerIs(table: string, n: nat)
    requires n > 0
    ensures Owner(table, n) == (Hash(table) as nat) % n
  {
    hide Hash;
  }

  function Upto(n: nat): (s: set<nat>)
    ensures forall i :: i in s <==> 0 <= i < n
  {
    if n == 0 then {} else Upto(n - 1) + {n - 1}
  }

  /** The shards a query is meant for, among n. */
  function Shards(query: Cql.Query, n: nat): set<nat>
    requires n > 0
  {
    if query.vector.Some? then Upto(n) else {Owner(query.from, n)}
  }

  function Addresses(shardMap: map<nat, string>, shards: seq<nat>): seq<string>
    requires forall shard :: shard in shards ==> shard in shardMap
  {
    seq(|shards|, i requires 0 <= i < |shards| => shardMap[shards[i]])
  }

  /** nodes lists, in some order and once per shard, the addresses of those of the shards that are registered. */
  ghost predicate Lists(shardMap: map<nat, string>, shards: set<nat>, nodes: seq<string>) {
    exists order: seq<nat> ::
      && NoDuplicates(order)
      && (forall shard :: shard in order <==> shard in shards && shard in shardMap)
      && nodes == Addresses(shardMap, order)
  }

  /** The nodes are those of the shards that the query is meant for. */
  ghost predicate Routes(shardMap: map<nat, string>, query: Cql.Query, nodes: seq<string>)
    requires shardMap != map[]
  {
    Lists(shardMap, Shards(query, |shardMap|), nodes)
  }

  lemma ListsOneMore(shardMap: map<nat, string>, shards: set<nat>, nodes: seq<string>, shard: nat)
    requires Lists(shardMap, shards, nodes) && shard !in shards
    ensures Lists(shardMap, shards + {shard}, if shard in shardMap then nodes + [shardMap[shard]] else nodes)
  {
    var order: seq<nat> :|
      && NoDuplicates(order)
      && (forall s :: s in order <==> s in shards && s in shardMap)
      && nodes == Addresses(shardMap, order);
    if shard in shardMap {
      var longer := order + [shard];
      assert forall s :: s in longer <==> s in shards + {shard} && s in shardMap;
      assert nodes + [shardMap[shard]] == Addresses(shardMap, longer);
    } else {
      assert forall s :: s in order <==> s in shards + {shard} && s in shardMap;
    }
  }

  lemma ListsNone(shardMap: map<nat, string>)
    ensures Lists(shardMap, {}, [])
  {
    assert [] == Addresses(shardMap, []);
  }

  class ShardRouter {
    var shardMap: map<nat, string>

    constructor ()
      ensures shardMap == map[]
    {
      shardMap := map[];
    }

    method RegisterShard(shard: nat, address: string)
      modifies this
      ensures shardMap == old(shardMap)[shard := address]
    {
      shardMap := shardMap[shard := address];
    }

    /** A shard that is not registered is passed over without an error. */
    method RouteQuery(query: Cql.Query) returns (nodes: Result<seq<string>, string>)
      ensures nodes.Err? <==> shardMap == map[]
      ensures nodes.Ok? ==> Routes(shardMap, query, nodes.value)
    {
      var shardCount := |shardMap|;
      if shardCount == 0 {
        return Err("no shards available");
      }
      var key := HashString(query.from);
      var targets := {(key as nat) % shardCount};
      if query.vector.Some? {
        for i := 0 to shardCount
          invariant targets == {Owner(query.from, shardCount)} + Upto(i)
        {
          targets := targets + {i};
        }
      }
      ghost var all := targets;
      assert all == Shards(query, shardCount);
      hide Owner, Hash, Lists, Shards;
      var found := [];
      assert Lists(shardMap, {}, []) by { ListsNone(shardMap); }
      while targets != {}
        invariant targets <= all && Lists(shardMap, all - targets, found)
      {
        var shard :| shard in targets;
        ListsOneMore(shardMap, all - targets, found, shard);
        assert all - targets + {shard} == all - (targets - {shard});
        targets := targets - {shard};
        if shard in shardMap {
          found := found + [shardMap[shard]];
        }
      }
      assert all - targets == all;
      nodes := Ok(found);
    }
  }

  /** Without a vector clause there is at most one node: the owner of the table. */
  lemma OwnerOnly(shardMap: map<nat, string>, query: Cql.Query, nodes: seq<string>)
    requires shardMap != map[] && query.vector.None? && Routes(shardMap, query, nodes)
    ensures var owner := (Hash(query.from) as nat) % |shardMap|;
      nodes == if owner in shardMap then [shardMap[owner]] else []
  {
    var owner := Owner(query.from, |shardMap|);
    OwnerIs(query.from, |shardMap|);
    hide Owner, Hash;
    var order: seq<nat> :|
      && NoDuplicates(order)
      && (forall shard :: shard in order <==> shard in Shards(query, |shardMap|) && shard in shardMap)
      && nodes == Addresses(shardMap, order);
    DistinctCount(order);
    if owner in shardMap {
      assert owner in order;
      assert Elements(order) == {owner};
      assert order == [owner];
    } else {
      assert order == [];
    }
  }

  lemma {:induction false} UptoCount(n: nat)
    ensures |Upto(n)| == n
  {
    if n > 0 { UptoCount(n - 1); }
  }

  /** There is one node in the answer for each shard that was meant and is registered. */
  lemma ListedCount(shardMap: map<nat, string>, shards: set<nat>, nodes: seq<string>)
    requires Lists(shardMap, shards, nodes)
    ensures |nodes| == |shards * shardMap.Keys|
    ensures forall shard :: shard in shards && shard in shardMap ==> shardMap[shard] in nodes
  {
    var order: seq<nat> :|
      && NoDuplicates(order)
      && (forall shard :: shard in order <==> shard in shards && shard in shardMap)
      && nodes == Addresses(shardMap, order);
    DistinctCount(order);
    assert Elements(order) == shards * shardMap.Keys;
    forall shard | shard in shards && shard in shardMap
      ensures shardMap[shard] in nodes
    {
      assert shard in order;
      var i :| 0 <= i < |order| && order[i] == shard;
      assert nodes[i] == shardMap[shard];
    }
  }

  /** With a vector clause all registered shards are asked exactly when they are numbered 0, .., n - 1. */
  lemma BroadcastReachesAllIff(shardMap: map<nat, string>, query: Cql.Query, nodes: seq<string>)
    requires shardMap != map[] && query.vector.Some? && Routes(shardMap, query, nodes)
    ensures |nodes| == |shardMap| <==> forall shard :: shard in shardMap <==> 0 <= shard < |shardMap|
    ensures |nodes| == |shardMap| ==> forall shard :: shard in shardMap ==> shardMap[shard] in nodes
  {
    var all, keys := Upto(|shardMap|), shardMap.Keys;
    ListedCount(shardMap, all, nodes);
    UptoCount(|shardMap|);
    assert |keys| == |shardMap|;
    hide Lists, Upto;
    assert all == keys ==> all * keys == keys;
    assert all == keys <==> forall shard :: shard in shardMap <==> 0 <= shard < |shardMap|;
    SubsetCount(all * keys, keys);
    SubsetCount(all * keys, all);
    if |nodes| == |shardMap| {
      assert all == all * keys == keys;
      assert forall shard :: shard in all <==> shard in keys;
    }
  }

  /** A parsed query, which has no vector clause, reaches all registered shards exactly when shard 0
      is the only one. */
  lemma ParsedReachesAllIff(shardMap: map<nat, string>, cql: string, nodes: seq<string>)
    requires shardMap != map[] && Routes(shardMap, Cql.Parsed(cql), nodes)
    ensures |nodes| == |shardMap| <==> shardMap.Keys == {0}
  {
    hide Routes, Hash, Owner;
    var owner := Owner(Cql.Parsed(cql).from, |shardMap|);
    OwnerIs(Cql.Parsed(cql).from, |shardMap|);
    OwnerOnly(shardMap, Cql.Parsed(cql), nodes);
    assert |shardMap| == |shardMap.Keys|;
    if |nodes| == |shardMap| {
      SubsetCount({owner}, shardMap.Keys);
      assert owner < 1;
    }
  }

  /** Every parsed query, also a similarity search, goes to the owner of its table alone. */
  lemma SearchesStayOnOwner(shardMap: map<nat, string>, table: string, j: int, k: int, scan: seq<string>,
                            vector: seq<string>, text: seq<string>)
    requires shardMap != map[] && Cql.IsAscii(table) && Cql.ReadableName(table) && Text.IsInt64(j) && Text.IsInt64(k)
    requires Routes(shardMap, Cql.Parsed(Cql.ScanText(table, j)), scan)
    requires Routes(shardMap, Cql.Parsed(Cql.VectorSearchText(table, k)), vector)
    requires Routes(shardMap, Cql.Parsed(Cql.TextSearchText(table, k)), text)
    ensures scan == vector == text
    ensures (forall shard :: shard in shardMap <==> 0 <= shard < |shardMap|) ==>
              scan == [shardMap[Owner(table, |shardMap|)]]
  {
    Cql.RoundTrip(table, j);
    Cql.RoundTrip(table, k);
    OwnerIs(table, |shardMap|);
    hide Hash, Routes, Owner;
    OwnerOnly(shardMap, Cql.Parsed(Cql.ScanText(table, j)), scan);
    OwnerOnly(shardMap, Cql.Parsed(Cql.VectorSearchText(table, k)), vector);
    OwnerOnly(shardMap, Cql.Parsed(Cql.TextSearchText(table, k)), text);
  }
}
