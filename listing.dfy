/**
 * What a `Find` over a collection returns: the documents as a sequence of
 * their keys, either newest first (`SetSort(created_at: -1)`, ties in no
 * particular order) or in no particular order at all, and a window of that
 * sequence (`SetSkip`, `SetLimit`).
 */
module Listing {
  import opened ObjectIds

  predicate Distinct(ks: seq<ObjectId>) {
    forall i, j :: 0 <= i < j < |ks| ==> ks[i] != ks[j]
  }

  lemma NewestExists<V>(m: map<ObjectId, V>, keys: set<ObjectId>, created: V -> int)
    requires keys <= m.Keys && keys != {}
    ensures exists k :: k in keys && forall j :: j in keys ==> created(m[j]) <= created(m[k])
    decreases keys
  {
    var k0 :| k0 in keys;
    if keys != {k0} {
      var rest := keys - {k0};
      NewestExists(m, rest, created);
      var k1 :| k1 in rest && forall j :: j in rest ==> created(m[j]) <= created(m[k1]);
      if created(m[k0]) <= created(m[k1]) {
        assert forall j :: j in keys ==> created(m[j]) <= created(m[k1]);
      } else {
        assert forall j :: j in keys ==> created(m[j]) <= created(m[k0]);
      }
    }
  }

  /** The keys, each once, newest first by `created`. */
  ghost function NewestFirst<V>(m: map<ObjectId, V>, keys: set<ObjectId>, created: V -> int): (ks: seq<ObjectId>)
    requires keys <= m.Keys
    ensures Distinct(ks) && |ks| == |keys|
    ensures forall k :: k in ks <==> k in keys
    ensures forall i, j :: 0 <= i < j < |ks| ==> created(m[ks[i]]) >= created(m[ks[j]])
    decreases keys
  {
    if keys == {} then []
    else
      NewestExists(m, keys, created);
      var k :| k in keys && forall j :: j in keys ==> created(m[j]) <= created(m[k]);
      [k] + NewestFirst(m, keys - {k}, created)
  }

  /** A listing of the keys, each once, newest first by `created`. */
  ghost predicate IsNewestFirst<V>(m: map<ObjectId, V>, keys: set<ObjectId>, created: V -> int, ks: seq<ObjectId>)
    requires keys <= m.Keys
  {
    && Distinct(ks)
    && (forall k :: k in ks <==> k in keys)
    && (forall i, j :: 0 <= i < j < |ks| ==> created(m[ks[i]]) >= created(m[ks[j]]))
  }

  /** No two of the keys have the same creation time. */
  ghost predicate DistinctTimes<V>(m: map<ObjectId, V>, keys: set<ObjectId>, created: V -> int)
    requires keys <= m.Keys
  {
    forall j, k :: j in keys && k in keys && j != k ==> created(m[j]) != created(m[k])
  }

  /** The head of a newest-first listing is at least as new as every key. */
  lemma NewestFirstHead<V>(m: map<ObjectId, V>, keys: set<ObjectId>, created: V -> int, a: seq<ObjectId>)
    requires keys <= m.Keys && IsNewestFirst(m, keys, created, a) && a != []
    ensures a[0] in keys && forall k :: k in keys ==> created(m[k]) <= created(m[a[0]])
  {
    forall k | k in keys
      ensures created(m[k]) <= created(m[a[0]])
    {
      var x :| 0 <= x < |a| && a[x] == k;
    }
  }

  /** Without its head, a newest-first listing lists the other keys. */
  lemma NewestFirstTail<V>(m: map<ObjectId, V>, keys: set<ObjectId>, created: V -> int, a: seq<ObjectId>)
    requires keys <= m.Keys && IsNewestFirst(m, keys, created, a) && a != []
    ensures IsNewestFirst(m, keys - {a[0]}, created, a[1..])
  {
    var rest := keys - {a[0]};
    forall k
      ensures k in a[1..] <==> k in rest
    {
      if k in a[1..] {
        var x :| 0 <= x < |a[1..]| && a[1..][x] == k;
        assert a[x + 1] == k;
      }
      if k in rest {
        var x :| 0 <= x < |a| && a[x] == k;
        assert a[1..][x - 1] == k;
      }
    }
  }

  /**
   * When no two keys share a creation time there is only one newest-first
   * listing of them, so every query sorted that way sees the same order.
   */
  lemma {:induction false} NewestFirstUnique<V>(m: map<ObjectId, V>, keys: set<ObjectId>, created: V -> int, a: seq<ObjectId>, b: seq<ObjectId>)
    requires keys <= m.Keys && DistinctTimes(m, keys, created)
    requires IsNewestFirst(m, keys, created, a) && IsNewestFirst(m, keys, created, b)
    ensures a == b
    decreases |a|
  {
    assert a != [] ==> a[0] in keys;
    assert b != [] ==> b[0] in keys;
    if a != [] && b != [] {
      NewestFirstHead(m, keys, created, a);
      NewestFirstHead(m, keys, created, b);
      assert a[0] == b[0];
      NewestFirstTail(m, keys, created, a);
      NewestFirstTail(m, keys, created, b);
      NewestFirstUnique(m, keys - {a[0]}, created, a[1..], b[1..]);
      assert a == [a[0]] + a[1..];
      assert b == [b[0]] + b[1..];
    }
  }

  /** The keys, each once, in an order the model does not fix. */
  ghost function AnyOrder(keys: set<ObjectId>): (ks: seq<ObjectId>)
    ensures Distinct(ks) && |ks| == |keys|
    ensures forall k :: k in ks <==> k in keys
    decreases keys
  {
    if keys == {} then []
    else
      var k :| k in keys;
      [k] + AnyOrder(keys - {k})
  }

  /** The documents stored under the keys, in the keys' order. */
  function Documents<V>(m: map<ObjectId, V>, ks: seq<ObjectId>): (docs: seq<V>)
    requires forall i :: 0 <= i < |ks| ==> ks[i] in m
    ensures |docs| == |ks| && forall i :: 0 <= i < |ks| ==> docs[i] == m[ks[i]]
  {
    seq(|ks|, i requires 0 <= i < |ks| => m[ks[i]])
  }

  /** A listing of every key in `keys` holds the document of every such key. */
  lemma DocumentsCover<V>(m: map<ObjectId, V>, ks: seq<ObjectId>, keys: set<ObjectId>)
    requires forall i :: 0 <= i < |ks| ==> ks[i] in m
    requires forall k :: k in ks <==> k in keys
    ensures forall k :: k in keys ==> m[k] in Documents(m, ks)
  {
    var docs := Documents(m, ks);
    forall k | k in keys
      ensures m[k] in docs
    {
      var i :| 0 <= i < |ks| && ks[i] == k;
      assert docs[i] == m[k];
    }
  }

  /** Skip `offset` entries, then keep at most `limit`. */
  function Page<T>(s: seq<T>, offset: nat, limit: nat): (r: seq<T>)
    ensures |r| <= limit
    ensures |r| == if offset >= |s| then 0 else if |s| - offset < limit then |s| - offset else limit
    ensures forall i :: 0 <= i < |r| ==> r[i] == s[offset + i]
  {
    if offset >= |s| then []
    else if |s| - offset < limit then s[offset..]
    else s[offset..offset + limit]
  }

  /**
   * Paging through a listing with the offset advanced by the page size sees
   * every entry once, in order: two consecutive pages make one larger page.
   */
  lemma ConsecutivePages<T>(s: seq<T>, offset: nat, limit: nat, limit2: nat)
    ensures Page(s, offset, limit) + Page(s, offset + limit, limit2) == Page(s, offset, limit + limit2)
  {
    var a, b, c := Page(s, offset, limit), Page(s, offset + limit, limit2), Page(s, offset, limit + limit2);
    assert |a + b| == |c|;
    forall i | 0 <= i < |c|
      ensures (a + b)[i] == c[i]
    {
      if i >= |a| {
        assert (a + b)[i] == b[i - |a|];
      }
    }
  }
}
