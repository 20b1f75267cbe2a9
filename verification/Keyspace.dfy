/**
 The Redis keyspace.  The service keeps three families of keys in one flat space of strings; here the flat space
 is shown to behave as three independent maps, and the commands are given as functions on those maps.  An expired
 key is absent.
 */
module Keyspace {
  import opened Prelude
  import opened Uuid

  /** Milliseconds on the one clock everything reads. */
  type Time = nat

  /** A tenant and a user name: what the failure counter is kept for. */
  type Door = (Uuid, string)

  /** A refresh payload, and the JSON document it is stored as: there UUIDs are text. */
  datatype Payload = Payload(user: Uuid, tenant: Uuid, roles: seq<string>, issuedAt: nat, expiresAt: nat)
  datatype Document = Document(user_id: string, tenant_id: string, roles: seq<string>, issued_at: nat, expires_at: nat)

  function Marshal(p: Payload): Document {
    Document(Text(p.user), Text(p.tenant), p.roles, p.issuedAt, p.expiresAt)
  }

  lemma MarshalInjective(p: Payload, q: Payload)
    ensures Marshal(p) == Marshal(q) ==> p == q
  {
    TextInjective(p.user, q.user);
    TextInjective(p.tenant, q.tenant);
  }

  datatype Token = Token(payload: Payload, expires: Time)
  datatype Index = Index(jtis: set<string>, expires: Option<Time>)
  datatype Tally = Tally(count: nat, expires: Option<Time>)

  /** The three families as independent maps. */
  datatype Keys = Keys(refresh: map<string, Token>, index: map<Uuid, Index>, brute: map<Door, Tally>)

  const NO_KEYS := Keys(map[], map[], map[])

  // ---- key text ----

  datatype Key =
    | RefreshKey(token: string)
    | IndexKey(user: Uuid)
    | BruteKey(door: Door)

  const BRUTE_PREFIX := "brute:"
  const REFRESH_PREFIX := "refresh:"
  const INDEX_PREFIX := "user_tokens:"

  /** The string the service builds. */
  function Print(k: Key): string {
    match k
    case RefreshKey(token) => REFRESH_PREFIX + token
    case IndexKey(user) => INDEX_PREFIX + Text(user)
    case BruteKey(door) => BRUTE_PREFIX + Text(door.0) + ":" + door.1
  }

  lemma PrefixCancels(prefix: string, a: string, b: string)
    ensures prefix + a == prefix + b ==> a == b
  {
    assert (prefix + a)[|prefix|..] == a && (prefix + b)[|prefix|..] == b;
  }

  /** A UUID has one text of fixed length, so a `:` in the user name or the token cannot blur a key. */
  lemma DoorTextInjective(a: Door, b: Door)
    requires Text(a.0) + ":" + a.1 == Text(b.0) + ":" + b.1
    ensures a == b
  {
    var s := Text(a.0) + ":" + a.1;
    assert s[..TEXT_LENGTH] == Text(a.0) && s[TEXT_LENGTH + 1..] == a.1;
    assert s[..TEXT_LENGTH] == Text(b.0) && s[TEXT_LENGTH + 1..] == b.1;
    TextRoundTrip(a.0);
    TextRoundTrip(b.0);
  }

  /** Whatever the token, the user name or the tenant: keys never collide, within a family or across families. */
  lemma PrintInjective(a: Key, b: Key)
    ensures Print(a) == Print(b) ==> a == b
  {
    var s, t := Print(a), Print(b);
    assert s[0] == if a.RefreshKey? then 'r' else if a.IndexKey? then 'u' else 'b';
    assert t[0] == if b.RefreshKey? then 'r' else if b.IndexKey? then 'u' else 'b';
    if s == t {
      match a
      case RefreshKey(token) => PrefixCancels(REFRESH_PREFIX, token, b.token);
      case IndexKey(user) =>
        PrefixCancels(INDEX_PREFIX, Text(user), Text(b.user));
        TextInjective(user, b.user);
      case BruteKey(door) =>
        var x, y := Text(door.0) + ":" + door.1, Text(b.door.0) + ":" + b.door.1;
        assert s == BRUTE_PREFIX + x && t == BRUTE_PREFIX + y;
        PrefixCancels(BRUTE_PREFIX, x, y);
        DoorTextInjective(door, b.door);
    }
  }

  // ---- the flat space and the three maps ----

  datatype Value = Str(document: Document, expires: Time) | Members(members: Index) | Num(tally: Tally)

  type Flat = map<string, Value>

  function FlatGet(store: Flat, key: string): Option<Value> {
    if key in store then Some(store[key]) else None
  }

  /** The flat value a key of the three maps stands for. */
  function Lookup(m: Keys, k: Key): Option<Value> {
    match k
    case RefreshKey(t) =>
      if t in m.refresh then Some(Str(Marshal(m.refresh[t].payload), m.refresh[t].expires)) else None
    case IndexKey(u) => if u in m.index then Some(Members(m.index[u])) else None
    case BruteKey(d) => if d in m.brute then Some(Num(m.brute[d])) else None
  }

  /** The flat space holds at the built keys exactly what the three maps hold. */
  ghost predicate Represents(store: Flat, m: Keys) {
    forall k :: Lookup(m, k) == FlatGet(store, Print(k))
  }

  /** A flat space stands for at most one triple of maps. */
  lemma RepresentsUnique(store: Flat, m: Keys, n: Keys)
    requires Represents(store, m) && Represents(store, n)
    ensures m == n
  {
    forall k ensures Lookup(m, k) == Lookup(n, k) { assert Lookup(m, k) == FlatGet(store, Print(k)); }
    forall t ensures t in m.refresh <==> t in n.refresh ensures t in m.refresh ==> m.refresh[t] == n.refresh[t] {
      assert Lookup(m, RefreshKey(t)) == Lookup(n, RefreshKey(t));
      if t in m.refresh { MarshalInjective(m.refresh[t].payload, n.refresh[t].payload); }
    }
    forall u ensures u in m.index <==> u in n.index ensures u in m.index ==> m.index[u] == n.index[u] {
      assert Lookup(m, IndexKey(u)) == Lookup(n, IndexKey(u));
    }
    forall d ensures d in m.brute <==> d in n.brute ensures d in m.brute ==> m.brute[d] == n.brute[d] {
      assert Lookup(m, BruteKey(d)) == Lookup(n, BruteKey(d));
    }
    assert m.refresh == n.refresh && m.index == n.index && m.brute == n.brute;
  }

  /** Two triples of maps that answer alike at every key but one. */
  ghost predicate DifferAt(m: Keys, n: Keys, k: Key) {
    forall j :: j != k ==> Lookup(m, j) == Lookup(n, j)
  }

  /** Writing one flat key changes that key of that family and no other key of any family. */
  lemma FlatPut(store: Flat, m: Keys, n: Keys, k: Key, v: Value)
    requires Represents(store, m) && DifferAt(m, n, k) && Lookup(n, k) == Some(v)
    ensures Represents(store[Print(k) := v], n)
  {
    OnlyOneMoves(store, store[Print(k) := v], m, n, k);
  }

  lemma FlatDel(store: Flat, m: Keys, n: Keys, k: Key)
    requires Represents(store, m) && DifferAt(m, n, k) && Lookup(n, k) == None
    ensures Represents(store - {Print(k)}, n)
  {
    OnlyOneMoves(store, store - {Print(k)}, m, n, k);
  }

  lemma OnlyOneMoves(store: Flat, after: Flat, m: Keys, n: Keys, k: Key)
    requires Represents(store, m) && DifferAt(m, n, k) && Lookup(n, k) == FlatGet(after, Print(k))
    requires forall s :: s != Print(k) ==> FlatGet(after, s) == FlatGet(store, s)
    ensures Represents(after, n)
  {
    forall j ensures Lookup(n, j) == FlatGet(after, Print(j)) {
      if j != k {
        PrintInjective(j, k);
        assert Lookup(n, j) == Lookup(m, j);
      }
    }
  }

  // ---- the commands, on the three maps ----

  function Del(m: Keys, k: Key): Keys {
    match k
    case RefreshKey(t) => m.(refresh := m.refresh - {t})
    case IndexKey(u) => m.(index := m.index - {u})
    case BruteKey(d) => m.(brute := m.brute - {d})
  }

  lemma DelDiffers(m: Keys, k: Key)
    ensures DifferAt(m, Del(m, k), k) && Lookup(Del(m, k), k) == None
  {
    forall j | j != k ensures Lookup(m, j) == Lookup(Del(m, k), j) { DelLookup(m, k, j); }
  }

  lemma DelLookup(m: Keys, k: Key, j: Key)
    requires j != k
    ensures Lookup(Del(m, k), j) == Lookup(m, j)
  {
  }

  function Set(m: Keys, token: string, payload: Payload, expires: Time): Keys {
    m.(refresh := m.refresh[token := Token(payload, expires)])
  }

  function Counter(m: Keys, d: Door): nat {
    if d in m.brute then m.brute[d].count else 0
  }

  /** A missing counter starts at one without expiry; an existing one keeps its expiry. */
  function Incr(m: Keys, d: Door): Keys {
    m.(brute := m.brute[d := Tally(Counter(m, d) + 1, if d in m.brute then m.brute[d].expires else None)])
  }

  /** The expiry EXPIRE is sent: whole seconds, at least one, the rest dropped. */
  function Whole(ttl: Time): Time {
    if 0 < ttl < 1000 then 1000 else ttl / 1000 * 1000
  }

  /** Whole seconds, and from one second on never more than was asked nor a whole second less. */
  lemma WholeSeconds(ttl: Time)
    ensures Whole(ttl) % 1000 == 0
    ensures if ttl >= 1000 || ttl == 0 then Whole(ttl) <= ttl < Whole(ttl) + 1000 else Whole(ttl) == 1000
  {
  }

  /** EXPIRE on a counter; a missing key stays missing. */
  function ExpireTally(m: Keys, d: Door, at: Time): Keys {
    if d in m.brute then m.(brute := m.brute[d := m.brute[d].(expires := Some(at))]) else m
  }

  function ExpireIndex(m: Keys, u: Uuid, at: Time): Keys {
    if u in m.index then m.(index := m.index[u := m.index[u].(expires := Some(at))]) else m
  }

  function SMembers(m: Keys, u: Uuid): set<string> {
    if u in m.index then m.index[u].jtis else {}
  }

  function SAdd(m: Keys, u: Uuid, x: string): Keys {
    m.(index := m.index[u := Index(SMembers(m, u) + {x}, if u in m.index then m.index[u].expires else None)])
  }

  /** Removing the last member removes the set. */
  function SRem(m: Keys, u: Uuid, x: string): Keys {
    if u !in m.index then m
    else if m.index[u].jtis - {x} == {} then m.(index := m.index - {u})
    else m.(index := m.index[u := m.index[u].(jtis := m.index[u].jtis - {x})])
  }

  predicate Alive(expires: Option<Time>, now: Time) {
    expires.Some? ==> now < expires.value
  }

  /** What is left once the clock stands at `now`. */
  function Purge(m: Keys, now: Time): Keys {
    Keys(map t | t in m.refresh && now < m.refresh[t].expires :: m.refresh[t],
         map u | u in m.index && Alive(m.index[u].expires, now) :: m.index[u],
         map d | d in m.brute && Alive(m.brute[d].expires, now) :: m.brute[d])
  }

  function Expiry(v: Value): Option<Time> {
    match v
    case Str(_, expires) => Some(expires)
    case Members(i) => i.expires
    case Num(n) => n.expires
  }

  function PurgeFlat(store: Flat, now: Time): Flat {
    map s | s in store && Alive(Expiry(store[s]), now) :: store[s]
  }

  lemma PurgeLookup(m: Keys, now: Time, k: Key)
    ensures Lookup(Purge(m, now), k) == match Lookup(m, k)
                                        case Some(v) => if Alive(Expiry(v), now) then Some(v) else None
                                        case None => None
  {
  }

  lemma FlatPurge(store: Flat, m: Keys, now: Time)
    requires Represents(store, m)
    ensures Represents(PurgeFlat(store, now), Purge(m, now))
  {
    forall k ensures Lookup(Purge(m, now), k) == FlatGet(PurgeFlat(store, now), Print(k)) {
      PurgeLookup(m, now, k);
      assert Lookup(m, k) == FlatGet(store, Print(k));
    }
  }
}
