/** The Redis server as the service sees it: one flat mutable keyspace and a clock. */
module Redis {
  import opened Prelude
  import opened Uuid
  import opened Keyspace

  /** No expiry, or one still to come. */
  predicate Lasts(expires: Option<Time>, now: Time) { expires == None || now < expires.value }

  class Server {
    var store: Flat
    var now: Time
    /** The three families the flat space stands for; the contracts below are stated on these. */
    ghost var keys: Keys

    ghost predicate Valid()
      reads this
    {
      Represents(store, keys)
    }

    constructor ()
      ensures Valid() && keys == NO_KEYS && now == 0
    {
      store := map[];
      keys := NO_KEYS;
      now := 0;
    }

    /** Time passes; keys whose expiry is reached disappear. */
    method Advance(d: Time)
      requires Valid()
      modifies this
      ensures Valid() && now == old(now) + d && keys == Purge(old(keys), now)
      ensures forall t :: t in keys.refresh <==> t in old(keys).refresh && now < old(keys).refresh[t].expires
      ensures forall t :: t in keys.refresh ==> keys.refresh[t] == old(keys).refresh[t]
      ensures forall k :: k in keys.brute <==> k in old(keys).brute && Lasts(old(keys).brute[k].expires, now)
      ensures forall k :: k in keys.brute ==> keys.brute[k] == old(keys).brute[k]
      ensures forall u :: u in keys.index <==> u in old(keys).index && Lasts(old(keys).index[u].expires, now)
      ensures forall u :: u in keys.index ==> keys.index[u] == old(keys).index[u]
    {
      FlatPurge(store, keys, now + d);
      now := now + d;
      store, keys := PurgeFlat(store, now), Purge(keys, now);
    }

    method Write(key: string, v: Value, ghost k: Key, ghost after: Keys)
      requires Valid() && key == Print(k) && DifferAt(keys, after, k) && Lookup(after, k) == Some(v)
      modifies this`store, this`keys
      ensures Valid() && keys == after
    {
      FlatPut(store, keys, after, k, v);
      store, keys := store[key := v], after;
    }

    method Del(key: string, ghost k: Key)
      requires Valid() && key == Print(k)
      modifies this`store, this`keys
      ensures Valid() && keys == Keyspace.Del(old(keys), k)
    {
      DelDiffers(keys, k);
      FlatDel(store, keys, Keyspace.Del(keys, k), k);
      store, keys := store - {key}, Keyspace.Del(keys, k);
    }

    /** GET of a refresh key: the stored document. */
    method Get(key: string, ghost token: string) returns (r: Option<Document>)
      requires Valid() && key == Print(RefreshKey(token))
      ensures r == if token in keys.refresh then Some(Marshal(keys.refresh[token].payload)) else None
    {
      assert Lookup(keys, RefreshKey(token)) == FlatGet(store, key);
      r := if key in store then Some(store[key].document) else None;
    }

    /** GET of a counter, zero when it is missing. */
    method GetInt(key: string, ghost d: Door) returns (n: nat)
      requires Valid() && key == Print(BruteKey(d))
      ensures n == Counter(keys, d)
    {
      assert Lookup(keys, BruteKey(d)) == FlatGet(store, key);
      n := if key in store then store[key].tally.count else 0;
    }

    method Set(key: string, document: Document, ttl: Time, ghost token: string, ghost payload: Payload)
      requires Valid() && key == Print(RefreshKey(token)) && document == Marshal(payload)
      modifies this`store, this`keys
      ensures Valid() && keys == Keyspace.Set(old(keys), token, payload, now + ttl)
    {
      Write(key, Str(document, now + ttl), RefreshKey(token), Keyspace.Set(keys, token, payload, now + ttl));
    }

    method Incr(key: string, ghost d: Door) returns (n: nat)
      requires Valid() && key == Print(BruteKey(d))
      modifies this`store, this`keys
      ensures Valid() && keys == Keyspace.Incr(old(keys), d)
      ensures n == Counter(keys, d)
    {
      assert Lookup(keys, BruteKey(d)) == FlatGet(store, key);
      var tally := if key in store then store[key].tally else Tally(0, None);
      n := tally.count + 1;
      Write(key, Num(tally.(count := n)), BruteKey(d), Keyspace.Incr(keys, d));
    }

    /** EXPIRE on a counter. */
    method ExpireTally(key: string, ttl: Time, ghost d: Door)
      requires Valid() && key == Print(BruteKey(d))
      modifies this`store, this`keys
      ensures Valid() && keys == Keyspace.ExpireTally(old(keys), d, now + Whole(ttl))
    {
      assert Lookup(keys, BruteKey(d)) == FlatGet(store, key);
      if key in store {
        var tally := store[key].tally.(expires := Some(now + Whole(ttl)));
        Write(key, Num(tally), BruteKey(d), Keyspace.ExpireTally(keys, d, now + Whole(ttl)));
      }
    }

    /** EXPIRE on an index set. */
    method ExpireIndex(key: string, ttl: Time, ghost u: Uuid)
      requires Valid() && key == Print(IndexKey(u))
      modifies this`store, this`keys
      ensures Valid() && keys == Keyspace.ExpireIndex(old(keys), u, now + Whole(ttl))
    {
      assert Lookup(keys, IndexKey(u)) == FlatGet(store, key);
      if key in store {
        var index := store[key].members.(expires := Some(now + Whole(ttl)));
        Write(key, Members(index), IndexKey(u), Keyspace.ExpireIndex(keys, u, now + Whole(ttl)));
      }
    }

    method SMembers(key: string, ghost u: Uuid) returns (jtis: set<string>)
      requires Valid() && key == Print(IndexKey(u))
      ensures jtis == Keyspace.SMembers(keys, u)
    {
      assert Lookup(keys, IndexKey(u)) == FlatGet(store, key);
      jtis := if key in store then store[key].members.jtis else {};
    }

    method SAdd(key: string, x: string, ghost u: Uuid)
      requires Valid() && key == Print(IndexKey(u))
      modifies this`store, this`keys
      ensures Valid() && keys == Keyspace.SAdd(old(keys), u, x)
    {
      assert Lookup(keys, IndexKey(u)) == FlatGet(store, key);
      var index := if key in store then store[key].members else Index({}, None);
      Write(key, Members(index.(jtis := index.jtis + {x})), IndexKey(u), Keyspace.SAdd(keys, u, x));
    }

    method SRem(key: string, x: string, ghost u: Uuid)
      requires Valid() && key == Print(IndexKey(u))
      modifies this`store, this`keys
      ensures Valid() && keys == Keyspace.SRem(old(keys), u, x)
    {
      assert Lookup(keys, IndexKey(u)) == FlatGet(store, key);
      if key in store {
        var index := store[key].members;
        if index.jtis - {x} == {} {
          Del(key, IndexKey(u));
        } else {
          Write(key, Members(index.(jtis := index.jtis - {x})), IndexKey(u), Keyspace.SRem(keys, u, x));
        }
      }
    }
  }
}
