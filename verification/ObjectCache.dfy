/**
 The short-TTL cache in front of the object source. Requests run concurrently: a run is any interleaving
 of their lookups, fetches and stores, with any clock readings.
 */
module ObjectCache {
  import opened Common
  import CursorCodec

  // ------------------------------------------------------------------ JSON replies

  datatype Json =
    | Null
    | Bool(b: bool)
    | Num(n: int)
    | Str(s: Text)
    | Arr(items: seq<Json>)
    | Obj(fields: map<string, Json>)

  function Get(v: Json, name: string): Option<Json> {
    if v.Obj? && name in v.fields then Some(v.fields[name]) else None
  }

  /** The value at a path of named members. */
  function AtPath(v: Json, path: seq<string>): Option<Json> {
    if path == [] then Some(v)
    else
      match Get(v, path[0])
      case None => None
      case Some(w) => AtPath(w, path[1..])
  }

  function OrNull(v: Option<Json>): Json {
    match v case None => Null case Some(w) => w
  }

  function Member(v: Json, name: string): Json {
    OrNull(Get(v, name))
  }

  /** A result stands for an existing object iff its `data` is a non-null value. */
  predicate Present(reply: Json) {
    Get(reply, "data").Some? && Get(reply, "data") != Some(Null)
  }

  // ------------------------------------------------------------------ the type parameter

  const OPEN: byte := 60
  const CLOSE: byte := 62

  /** The first place of `c`. */
  function Find(s: Text, c: byte): (r: Option<nat>)
    ensures r.Some? ==> r.value < |s| && s[r.value] == c && c !in s[..r.value]
    ensures r.None? ==> c !in s
  {
    if s == [] then None
    else if s[0] == c then Some(0)
    else
      match Find(s[1..], c)
      case None => None
      case Some(i) => assert s[..i + 1] == [s[0]] + s[1..][..i]; Some(i + 1)
  }

  /** The last place of `c`. */
  function FindLast(s: Text, c: byte): (r: Option<nat>)
    ensures r.Some? ==> r.value < |s| && s[r.value] == c && c !in s[r.value + 1..]
    ensures r.None? ==> c !in s
  {
    if s == [] then None
    else if s[|s| - 1] == c then Some(|s| - 1)
    else
      match FindLast(s[..|s| - 1], c)
      case None => assert s == s[..|s| - 1] + [s[|s| - 1]]; None
      case Some(i) => assert s[i + 1..] == s[..|s| - 1][i + 1..] + [s[|s| - 1]]; Some(i)
  }

  function TypeParam(t: Text): Option<Text> {
    match (Find(t, OPEN), FindLast(t, CLOSE))
    case (Some(start), Some(end)) => if end > start + 1 then Some(t[start + 1..end]) else None
    case _ => None
  }

  /** The parameter of `<head><param>` is found whole, however many brackets it holds itself. */
  lemma TypeParamOf(head: Text, param: Text, tail: Text)
    requires OPEN !in head && CLOSE !in tail
    ensures TypeParam(head + [OPEN] + param + [CLOSE] + tail) == if param == [] then None else Some(param)
  {
    hide Find, FindLast;
    var t := head + [OPEN] + param + [CLOSE] + tail;
    var n, m := |head|, |head| + 1 + |param|;
    assert t[..n] == head && t[m + 1..] == tail;
    assert t[n] == OPEN && t[m] == CLOSE && t[n + 1..m] == param;
    FoundAt(t, OPEN, n);
    FoundLastAt(t, CLOSE, m);
  }

  lemma FoundAt(t: Text, c: byte, n: nat)
    requires n < |t| && t[n] == c && c !in t[..n]
    ensures Find(t, c) == Some(n)
  {
    hide Find;
    var r := Find(t, c);
    assert c in t;
    forall k | 0 <= k < n ensures t[k] != c { assert t[k] == t[..n][k]; }
    forall k | 0 <= k < r.value ensures t[k] != c { assert t[k] == t[..r.value][k]; }
  }

  lemma FoundLastAt(t: Text, c: byte, n: nat)
    requires n < |t| && t[n] == c && c !in t[n + 1..]
    ensures FindLast(t, c) == Some(n)
  {
    hide FindLast;
    var r := FindLast(t, c);
    assert c in t;
    forall k | n < k < |t| ensures t[k] != c { assert t[k] == t[n + 1..][k - n - 1]; }
    forall k | r.value < k < |t| ensures t[k] != c { assert t[k] == t[r.value + 1..][k - r.value - 1]; }
  }

  /** A parameter is found exactly between the first `<` and the last `>`, if not empty. */
  lemma TypeParamIff(t: Text, param: Text)
    ensures TypeParam(t) == Some(param)
       <==> param != [] && exists head, tail ::
              60 !in head && 62 !in tail && t == head + [60] + param + [62] + tail
  {
    if TypeParam(t) == Some(param) {
      var start, end := Find(t, OPEN).value, FindLast(t, CLOSE).value;
      var head, tail := t[..start], t[end + 1..];
      assert t == head + [OPEN] + param + [CLOSE] + tail;
    }
    if head, tail :| OPEN !in head && CLOSE !in tail && t == head + [OPEN] + param + [CLOSE] + tail {
      TypeParamOf(head, param, tail);
    }
  }

  // ------------------------------------------------------------------ reshaping

  /** The array elements that fit a u64, each cut to its low byte. */
  function LowBytes(items: seq<Json>): seq<byte> {
    if items == [] then []
    else
      var v := items[|items| - 1];
      LowBytes(items[..|items| - 1]) + if v.Num? && 0 <= v.n < TWO_64 then [v.n % 256] else []
  }

  /** One element gives its low byte if it is an unsigned 64-bit number, and nothing otherwise. */
  lemma LowByteOf(v: Json)
    ensures LowBytes([v]) == if v.Num? && 0 <= v.n <= 0xFFFF_FFFF_FFFF_FFFF then [v.n % 0x100] else []
  {
    assert [v][..0] == [];
  }

  /** The bytes of a list are those of its elements in order. */
  lemma {:induction false} LowBytesJoin(a: seq<Json>, b: seq<Json>)
    ensures LowBytes(a + b) == LowBytes(a) + LowBytes(b)
  {
    if b == [] {
      assert a + b == a;
    } else {
      var n := |b| - 1;
      assert (a + b)[..|a| + n] == a + b[..n];
      LowBytesJoin(a, b[..n]);
    }
  }

  function Hexify(v: Option<Json>): Json {
    match v
    case Some(Str(s)) => Str(s)
    case Some(Arr(items)) => Str(CursorCodec.HexEncode(LowBytes(items)))
    case _ => Null
  }

  function WalrusRef(item: Json): Json {
    var f := match Get(item, "fields") case None => item case Some(v) => v;
    Obj(map["blob_id" := Hexify(Get(f, "blob_id")), "sha256" := Hexify(Get(f, "sha256")),
            "attested_by" := Member(f, "attested_by")])
  }

  function RefItems(reply: Json): seq<Json> {
    match AtPath(reply, ["data", "content", "fields", "value"])
    case Some(Arr(items)) => items
    case _ => []
  }

  function WalrusRefs(reply: Json): Json {
    Arr(seq(|RefItems(reply)|, i requires 0 <= i < |RefItems(reply)| => WalrusRef(RefItems(reply)[i])))
  }

  method ExtractWalrusRefs(reply: Json) returns (out: seq<Json>)
    ensures Arr(out) == WalrusRefs(reply)
  {
    out := [];
    var items := RefItems(reply);
    for i := 0 to |items|
      invariant |out| == i && forall k :: 0 <= k < i ==> out[k] == WalrusRef(items[k])
    {
      out := out + [WalrusRef(items[i])];
    }
  }

  /** `{data: {..}}` and a flat result are both taken. */
  function MetadataFields(reply: Json): Json {
    match Get(reply, "data") case None => reply case Some(v) => v
  }

  /** A missing member is null. */
  function CoinMetadata(coinType: Text, reply: Json): Json {
    var f := MetadataFields(reply);
    Obj(map["coin_type" := Str(coinType), "symbol" := Member(f, "symbol"), "name" := Member(f, "name"),
            "decimals" := Member(f, "decimals")])
  }

  function CoinType(found: Json): Option<Text> {
    match AtPath(found, ["data", "type"])
    case Some(Str(s)) => TypeParam(s)
    case _ => None
  }

  // ------------------------------------------------------------------ keys

  datatype Kind = ObjectKind | LegalDocs | Metadata

  function Prefix(kind: Kind): Text {
    match kind
    case ObjectKind => [111, 98, 106, 58] // "obj:"
    case LegalDocs => [108, 100, 58] // "ld:"
    case Metadata => [99, 109, 58] // "cm:"
  }

  function Key(kind: Kind, id: Text): Text {
    Prefix(kind) + id
  }

  lemma KeysAreSpelled(id: Text)
    ensures Spells(Key(ObjectKind, []), "obj:") && Spells(Key(LegalDocs, []), "ld:") && Spells(Key(Metadata, []), "cm:")
    ensures Key(ObjectKind, id) == Key(ObjectKind, []) + id && Key(LegalDocs, id) == Key(LegalDocs, []) + id
    ensures Key(Metadata, id) == Key(Metadata, []) + id
  {
  }

  lemma KeysDoNotCollide(k: Kind, id: Text, m: Kind, other: Text)
    ensures Key(k, id) == Key(m, other) <==> k == m && id == other
  {
    if Key(k, id) == Key(m, other) {
      assert Key(k, id)[0] == Prefix(k)[0] && Key(m, other)[0] == Prefix(m)[0];
      assert Key(k, id)[|Prefix(k)|..] == id && Key(m, other)[|Prefix(m)|..] == other;
    }
  }

  // ------------------------------------------------------------------ the table

  datatype Entry = Entry(at: int, value: Json)

  type Cache = map<Text, Entry>

  /** `duration_since`, which saturates at zero. */
  function Age(now: int, at: int): nat {
    if now < at then 0 else now - at
  }

  predicate Live(ttl: nat, cache: Cache, key: Text, now: int) {
    key in cache && Age(now, cache[key].at) < ttl
  }

  /** The live value under a key and the table after the lookup: a stale entry is dropped. */
  function Lookup(ttl: nat, cache: Cache, key: Text, now: int): (Option<Json>, Cache) {
    if Live(ttl, cache, key, now) then (Some(cache[key].value), cache) else (None, cache - {key})
  }

  /** A lookup hits exactly while the entry is younger than `ttl`, and drops it otherwise and nothing else. */
  lemma LookupHitsIff(ttl: nat, cache: Cache, key: Text, now: int, v: Json)
    ensures Lookup(ttl, cache, key, now).0 == Some(v)
       <==> key in cache && cache[key].value == v && 0 < ttl && now - cache[key].at < ttl
    ensures Lookup(ttl, cache, key, now).1
         == if Lookup(ttl, cache, key, now).0.Some? then cache else map k | k in cache && k != key :: cache[k]
  {
  }

  function Put(cache: Cache, key: Text, v: Json, at: int): Cache {
    cache[key := Entry(at, v)]
  }

  class ObjectProxy {
    const ttl: nat
    var cache: Cache

    constructor (ttl: nat)
      ensures this.ttl == ttl && cache == map[]
    {
      this.ttl := ttl;
      cache := map[];
    }

    method Cached(key: Text, now: int) returns (v: Option<Json>)
      modifies this
      ensures (v, cache) == Lookup(ttl, old(cache), key, now)
    {
      if key in cache {
        if Age(now, cache[key].at) < ttl { return Some(cache[key].value); }
        cache := cache - {key};
      }
      assert cache == old(cache) - {key};
      return None;
    }

    method Store(key: Text, v: Json, at: int)
      modifies this
      ensures cache == Put(old(cache), key, v, at)
    {
      cache := cache[key := Entry(at, v)];
    }
  }

  // ------------------------------------------------------------------ requests

  datatype Request = GetObject(id: Text) | GetLegalDocs(assetId: Text) | GetMetadata(accumulatorId: Text)

  datatype Answer = Found(value: Json) | NotFound | Failed

  /** Where a request stands: before a lookup, awaiting the source, before a store, answered. */
  datatype Phase =
    | Looking(kind: Kind, id: Text)
    | Fetching(kind: Kind, id: Text)
    | Saving(kind: Kind, id: Text, value: Json)
    | Done

  datatype Task = Task(request: Request, phase: Phase)

  datatype Happening =
    | Hit(kind: Kind, id: Text, value: Json, now: int)
    | Replied(kind: Kind, id: Text, reply: Json)
    | Errored(kind: Kind, id: Text)
    | Stored(kind: Kind, id: Text, value: Json, at: int)
    | Answered(request: Request, answer: Answer)

  type Log = seq<Happening>

  datatype Proxy = Proxy(cache: Cache, tasks: map<nat, Task>, log: Log)

  /** `reply` is None when the source fails. */
  datatype Action =
    | Begin(task: nat, request: Request)
    | Look(task: nat, now: int)
    | Receive(task: nat, reply: Option<Json>)
    | Save(task: nat, at: int)

  function FirstPhase(r: Request): Phase {
    match r
    case GetObject(id) => Looking(ObjectKind, id)
    case GetLegalDocs(id) => Looking(LegalDocs, id)
    case GetMetadata(id) => Looking(ObjectKind, id)
  }

  /** What a successful reply is worth: nothing, or the value to store and to answer. */
  function Shape(kind: Kind, id: Text, reply: Json): Option<Json> {
    match kind
    case ObjectKind => if Present(reply) then Some(reply) else None
    case LegalDocs => if Present(reply) then Some(WalrusRefs(reply)) else None
    case Metadata => Some(CoinMetadata(id, reply))
  }

  /** A value is there: metadata goes on from the object to its coin, everything else answers. */
  function Proceed(s: Proxy, i: nat, r: Request, kind: Kind, value: Json): Proxy {
    if r.GetMetadata? && kind == ObjectKind then
      match CoinType(value)
      case None => s.(tasks := s.tasks[i := Task(r, Done)], log := s.log + [Answered(r, NotFound)])
      case Some(t) => s.(tasks := s.tasks[i := Task(r, Looking(Metadata, t))])
    else s.(tasks := s.tasks[i := Task(r, Done)], log := s.log + [Answered(r, Found(value))])
  }

  function LookStep(ttl: nat, s: Proxy, i: nat, r: Request, kind: Kind, id: Text, now: int): Proxy {
    var (value, cache) := Lookup(ttl, s.cache, Key(kind, id), now);
    match value
    case Some(v) => Proceed(s.(cache := cache, log := s.log + [Hit(kind, id, v, now)]), i, r, kind, v)
    case None => s.(cache := cache, tasks := s.tasks[i := Task(r, Fetching(kind, id))])
  }

  function ReceiveStep(s: Proxy, i: nat, r: Request, kind: Kind, id: Text, reply: Option<Json>): Proxy {
    match reply
    case None => s.(tasks := s.tasks[i := Task(r, Done)], log := s.log + [Errored(kind, id), Answered(r, Failed)])
    case Some(v) =>
      match Shape(kind, id, v)
      case None =>
        s.(tasks := s.tasks[i := Task(r, Done)], log := s.log + [Replied(kind, id, v), Answered(r, NotFound)])
      case Some(w) => s.(tasks := s.tasks[i := Task(r, Saving(kind, id, w))], log := s.log + [Replied(kind, id, v)])
  }

  function SaveStep(s: Proxy, i: nat, r: Request, kind: Kind, id: Text, value: Json, at: int): Proxy {
    var stored := s.(cache := Put(s.cache, Key(kind, id), value, at), log := s.log + [Stored(kind, id, value, at)]);
    Proceed(stored, i, r, kind, value)
  }

  /** One step of one request; an action its request is not ready for changes nothing. */
  function Step(ttl: nat, s: Proxy, a: Action): Proxy {
    if a.Begin? then
      if a.task in s.tasks then s else s.(tasks := s.tasks[a.task := Task(a.request, FirstPhase(a.request))])
    else if a.task !in s.tasks then s
    else
      var t := s.tasks[a.task];
      match (a, t.phase)
      case (Look(i, now), Looking(kind, id)) => LookStep(ttl, s, i, t.request, kind, id, now)
      case (Receive(i, reply), Fetching(kind, id)) => ReceiveStep(s, i, t.request, kind, id, reply)
      case (Save(i, at), Saving(kind, id, value)) => SaveStep(s, i, t.request, kind, id, value, at)
      case _ => s
  }

  function After(ttl: nat, s: Proxy, actions: seq<Action>): Proxy {
    if actions == [] then s else Step(ttl, After(ttl, s, actions[..|actions| - 1]), actions[|actions| - 1])
  }

  function Run(ttl: nat, actions: seq<Action>): Proxy {
    After(ttl, Proxy(map[], map[], []), actions)
  }

  // ------------------------------------------------------------------ what a log may hold

  function LastStore(log: Log, kind: Kind, id: Text): Option<Entry> {
    if log == [] then None
    else
      var h := log[|log| - 1];
      if h.Stored? && h.kind == kind && h.id == id then Some(Entry(h.at, h.value))
      else LastStore(log[..|log| - 1], kind, id)
  }

  // The same replies read member by member, independently of the functions above.

  /** A member of an object; null where there is none. */
  function Field(v: Json, name: string): Json {
    if v.Obj? && name in v.fields then v.fields[name] else Null
  }

  /** The reply is an object with a non-null `data`: not `{data: null}`, and nothing without `data`. */
  predicate Exists(reply: Json) {
    reply.Obj? && "data" in reply.fields && reply.fields["data"] != Null
  }

  /** Texts as they are, arrays as the lower-case hex of their bytes, anything else null. */
  predicate HexOf(out: Json, v: Json) {
    match v
    case Str(s) => out == Str(s)
    case Arr(items) =>
      out.Str? && CursorCodec.HexDecode(out.s) == Some(LowBytes(items)) && CursorCodec.Lower(out.s) == out.s
    case _ => out == Null
  }

  /** A reshaped element: its own members or those of its `fields`. */
  predicate RefOf(out: Json, item: Json) {
    var f := if item.Obj? && "fields" in item.fields then item.fields["fields"] else item;
    && out.Obj? && out.fields.Keys == {"blob_id", "sha256", "attested_by"}
    && HexOf(out.fields["blob_id"], Field(f, "blob_id")) && HexOf(out.fields["sha256"], Field(f, "sha256"))
    && out.fields["attested_by"] == Field(f, "attested_by")
  }

  /** One reference for each element at `data.content.fields.value`, and none if there is no array. */
  predicate RefsOf(out: Json, reply: Json) {
    var value := Field(Field(Field(Field(reply, "data"), "content"), "fields"), "value");
    var items := if value.Arr? then value.items else [];
    out.Arr? && |out.items| == |items| && forall i :: 0 <= i < |items| ==> RefOf(out.items[i], items[i])
  }

  /** Coin metadata, under `data` or at the top. */
  predicate CoinOf(out: Json, coinType: Text, reply: Json) {
    var f := if reply.Obj? && "data" in reply.fields then reply.fields["data"] else reply;
    && out.Obj? && out.fields.Keys == {"coin_type", "symbol", "name", "decimals"}
    && out.fields["coin_type"] == Str(coinType) && out.fields["symbol"] == Field(f, "symbol")
    && out.fields["name"] == Field(f, "name") && out.fields["decimals"] == Field(f, "decimals")
  }

  /** The coin type in an object's `data.type`. */
  predicate TypedBy(found: Json, t: Option<Text>) {
    match Field(Field(found, "data"), "type")
    case Str(s) => t == TypeParam(s)
    case _ => t == None
  }

  /** A reply for something that exists is worth the object itself, or what it is reshaped to. */
  predicate Worth(kind: Kind, id: Text, reply: Json, v: Json) {
    match kind
    case ObjectKind => Exists(reply) && v == reply
    case LegalDocs => Exists(reply) && RefsOf(v, reply)
    case Metadata => CoinOf(v, id, reply)
  }

  /** What a reply is worth is one value, the one that is stored and answered. */
  lemma ShapeIsWorth(kind: Kind, id: Text, reply: Json, v: Json)
    ensures Shape(kind, id, reply) == Some(v) <==> Worth(kind, id, reply, v)
    ensures Shape(kind, id, reply) == None ==> kind != Metadata && !Exists(reply)
  {
    hide LowBytes;
    match kind {
      case ObjectKind =>
      case LegalDocs => RefsAreReshaped(v, reply);
      case Metadata => CoinIsReshaped(v, id, reply);
    }
  }

  lemma CoinIsReshaped(out: Json, id: Text, reply: Json)
    ensures out == CoinMetadata(id, reply) <==> CoinOf(out, id, reply)
  {
    var meta := CoinMetadata(id, reply);
    if CoinOf(out, id, reply) { assert out.fields == meta.fields; }
  }

  lemma HexifyIsHex(out: Json, f: Json, name: string)
    ensures out == Hexify(Get(f, name)) <==> HexOf(out, Field(f, name))
  {
    match Get(f, name) {
      case Some(Arr(items)) =>
        CursorCodec.DecodeEncode(LowBytes(items));
        CursorCodec.EncodeDecode(CursorCodec.HexEncode(LowBytes(items)));
        if HexOf(out, Arr(items)) { CursorCodec.EncodeDecode(out.s); }
      case _ =>
    }
  }

  lemma RefIsReshaped(out: Json, item: Json)
    ensures out == WalrusRef(item) <==> RefOf(out, item)
  {
    hide Hexify, HexOf;
    var f := match Get(item, "fields") case None => item case Some(v) => v;
    var r := WalrusRef(item);
    HexifyIsHex(r.fields["blob_id"], f, "blob_id");
    HexifyIsHex(r.fields["sha256"], f, "sha256");
    if RefOf(out, item) {
      HexifyIsHex(out.fields["blob_id"], f, "blob_id");
      HexifyIsHex(out.fields["sha256"], f, "sha256");
      assert out.fields == r.fields;
    }
  }

  lemma RefsAreReshaped(out: Json, reply: Json)
    ensures out == WalrusRefs(reply) <==> RefsOf(out, reply)
  {
    hide RefOf, WalrusRef, AtPath;
    ItemsAreFound(reply);
    var items := RefItems(reply);
    forall i | 0 <= i < |items| { RefIsReshaped(WalrusRef(items[i]), items[i]); }
    if RefsOf(out, reply) {
      forall i | 0 <= i < |items| ensures out.items[i] == WalrusRef(items[i]) { RefIsReshaped(out.items[i], items[i]); }
      assert out.items == WalrusRefs(reply).items;
    }
  }

  lemma ItemsAreFound(reply: Json)
    ensures var value := Field(Field(Field(Field(reply, "data"), "content"), "fields"), "value");
            RefItems(reply) == if value.Arr? then value.items else []
  {
    hide Field, AtPath;
    var data := Field(reply, "data");
    var content := Field(data, "content");
    var fields := Field(content, "fields");
    AtPathStep(reply, "data", ["content", "fields", "value"]);
    AtPathStep(data, "content", ["fields", "value"]);
    AtPathStep(content, "fields", ["value"]);
    AtPathStep(fields, "value", []);
    assert ["data"] + ["content", "fields", "value"] == ["data", "content", "fields", "value"];
    assert ["content"] + ["fields", "value"] == ["content", "fields", "value"];
    assert ["fields"] + ["value"] == ["fields", "value"];
    assert ["value"] + [] == ["value"];
    AtPathEnd(Field(fields, "value"));
  }

  lemma AtPathEnd(v: Json)
    ensures OrNull(AtPath(v, [])) == v
  {
  }

  lemma AtPathStep(v: Json, name: string, rest: seq<string>)
    ensures OrNull(AtPath(v, [name] + rest)) == OrNull(AtPath(Field(v, name), rest))
  {
    assert ([name] + rest)[1..] == rest;
  }

  lemma TypeIsFound(found: Json)
    ensures TypedBy(found, CoinType(found))
    ensures forall t :: TypedBy(found, t) ==> t == CoinType(found)
  {
    hide TypeParam, Field, AtPath;
    var data := Field(found, "data");
    AtPathStep(found, "data", ["type"]);
    AtPathStep(data, "type", []);
    assert ["data"] + ["type"] == ["data", "type"] && ["type"] + [] == ["type"];
    AtPathEnd(Field(data, "type"));
  }

  // What the source has said.

  /** The source has given a reply of this kind for this id that is worth `v`. */
  ghost predicate Backed(log: Log, kind: Kind, id: Text, v: Json) {
    exists h <- log :: h.Replied? && h.kind == kind && h.id == id && Worth(kind, id, h.reply, v)
  }

  /** The source has just said that there is nothing. */
  ghost predicate SaidAbsent(log: Log, kind: Kind, id: Text) {
    log != [] && var h := log[|log| - 1]; h.Replied? && h.kind == kind && h.id == id && !Exists(h.reply)
  }

  /** The accumulator object just stored, or just found in the cache, has no coin type. */
  ghost predicate SawNoCoin(log: Log, accumulator: Text) {
    && log != []
    && var h := log[|log| - 1];
       (h.Hit? || h.Stored?) && h.kind == ObjectKind && h.id == accumulator && TypedBy(h.value, None)
  }

  /** The accumulator object that the source gave has coin type `t`. */
  ghost predicate HasCoin(log: Log, accumulator: Text, t: Option<Text>) {
    exists v :: Backed(log, ObjectKind, accumulator, v) && TypedBy(v, t)
  }

  ghost predicate MayFind(log: Log, r: Request, v: Json) {
    match r
    case GetObject(id) => Backed(log, ObjectKind, id, v)
    case GetLegalDocs(id) => Backed(log, LegalDocs, id, v)
    case GetMetadata(id) => exists t :: HasCoin(log, id, Some(t)) && Backed(log, Metadata, t, v)
  }

  ghost predicate MayMiss(log: Log, r: Request) {
    match r
    case GetObject(id) => SaidAbsent(log, ObjectKind, id)
    case GetLegalDocs(id) => SaidAbsent(log, LegalDocs, id)
    case GetMetadata(id) => SaidAbsent(log, ObjectKind, id) || SawNoCoin(log, id)
  }

  ghost predicate Justified(ttl: nat, log: Log, h: Happening) {
    match h
    case Hit(kind, id, v, now) =>
      && Backed(log, kind, id, v)
      && var e := LastStore(log, kind, id); e.Some? && e.value.value == v && Age(now, e.value.at) < ttl
    case Stored(kind, id, v, at) => Backed(log, kind, id, v)
    case Answered(r, Found(v)) => MayFind(log, r, v)
    case Answered(r, NotFound) => MayMiss(log, r)
    case Answered(r, Failed) => log != [] && log[|log| - 1].Errored?
    case _ => true
  }

  ghost predicate Honest(ttl: nat, log: Log) {
    log == [] || (Honest(ttl, log[..|log| - 1]) && Justified(ttl, log[..|log| - 1], log[|log| - 1]))
  }

  // ------------------------------------------------------------------ the invariant

  /** A request works on what it was asked for. */
  ghost predicate OnTask(log: Log, r: Request, kind: Kind, id: Text) {
    match r
    case GetObject(x) => kind == ObjectKind && id == x
    case GetLegalDocs(x) => kind == LegalDocs && id == x
    case GetMetadata(x) => (kind == ObjectKind && id == x) || (kind == Metadata && HasCoin(log, x, Some(id)))
  }

  ghost predicate TaskOk(log: Log, t: Task) {
    && (!t.phase.Done? ==> OnTask(log, t.request, t.phase.kind, t.phase.id))
    && (t.phase.Saving? ==> Backed(log, t.phase.kind, t.phase.id, t.phase.value))
  }

  ghost predicate TasksOk(log: Log, tasks: map<nat, Task>) {
    forall i :: i in tasks ==> TaskOk(log, tasks[i])
  }

  /** Every entry is the last thing stored under its key, and the source stands behind it. */
  ghost predicate CacheOk(log: Log, cache: Cache) {
    forall kind, id :: Key(kind, id) in cache ==>
      && LastStore(log, kind, id) == Some(cache[Key(kind, id)])
      && Backed(log, kind, id, cache[Key(kind, id)].value)
  }

  ghost predicate Inv(ttl: nat, s: Proxy) {
    CacheOk(s.log, s.cache) && TasksOk(s.log, s.tasks) && Honest(ttl, s.log)
  }

  lemma BackedStays(log: Log, more: Log, kind: Kind, id: Text, v: Json)
    requires Backed(log, kind, id, v)
    ensures Backed(log + more, kind, id, v)
  {
    hide Worth;
    var h :| h in log && h.Replied? && h.kind == kind && h.id == id && Worth(kind, id, h.reply, v);
    assert h in log + more;
  }

  lemma OnTaskStays(log: Log, more: Log, r: Request, kind: Kind, id: Text)
    requires OnTask(log, r, kind, id)
    ensures OnTask(log + more, r, kind, id)
  {
    hide Worth, Backed, TypedBy;
    if r.GetMetadata? && kind == Metadata {
      var v :| Backed(log, ObjectKind, r.accumulatorId, v) && TypedBy(v, Some(id));
      BackedStays(log, more, ObjectKind, r.accumulatorId, v);
    }
  }

  lemma TasksStay(log: Log, more: Log, tasks: map<nat, Task>)
    requires TasksOk(log, tasks)
    ensures TasksOk(log + more, tasks)
  {
    hide OnTask, Backed;
    forall i | i in tasks ensures TaskOk(log + more, tasks[i]) {
      var t := tasks[i];
      if !t.phase.Done? { OnTaskStays(log, more, t.request, t.phase.kind, t.phase.id); }
      if t.phase.Saving? { BackedStays(log, more, t.phase.kind, t.phase.id, t.phase.value); }
    }
  }

  lemma LastStoreStays(log: Log, h: Happening, kind: Kind, id: Text)
    ensures LastStore(log + [h], kind, id)
         == if h.Stored? && h.kind == kind && h.id == id then Some(Entry(h.at, h.value)) else LastStore(log, kind, id)
  {
    assert (log + [h])[..|log|] == log;
  }

  lemma CacheStays(log: Log, h: Happening, cache: Cache)
    requires CacheOk(log, cache) && !h.Stored?
    ensures CacheOk(log + [h], cache)
  {
    hide Backed, LastStore;
    forall kind, id | Key(kind, id) in cache
      ensures LastStore(log + [h], kind, id) == Some(cache[Key(kind, id)])
      ensures Backed(log + [h], kind, id, cache[Key(kind, id)].value)
    {
      LastStoreStays(log, h, kind, id);
      BackedStays(log, [h], kind, id, cache[Key(kind, id)].value);
    }
  }

  lemma CacheStores(log: Log, cache: Cache, kind: Kind, id: Text, v: Json, at: int)
    requires CacheOk(log, cache) && Backed(log, kind, id, v)
    ensures CacheOk(log + [Stored(kind, id, v, at)], cache[Key(kind, id) := Entry(at, v)])
  {
    hide Backed, LastStore, Key;
    var h := Stored(kind, id, v, at);
    var after := cache[Key(kind, id) := Entry(at, v)];
    forall m, x | Key(m, x) in after
      ensures LastStore(log + [h], m, x) == Some(after[Key(m, x)]) && Backed(log + [h], m, x, after[Key(m, x)].value)
    {
      KeysDoNotCollide(kind, id, m, x);
      LastStoreStays(log, h, m, x);
      BackedStays(log, [h], m, x, after[Key(m, x)].value);
    }
  }

  lemma Logs(ttl: nat, log: Log, h: Happening)
    requires Honest(ttl, log) && Justified(ttl, log, h)
    ensures Honest(ttl, log + [h])
  {
    hide Justified;
    assert (log + [h])[..|log|] == log;
  }

  /** Logging anything but a store keeps the invariant. */
  lemma LogKeeps(ttl: nat, s: Proxy, h: Happening)
    requires Inv(ttl, s) && Justified(ttl, s.log, h) && !h.Stored?
    ensures Inv(ttl, s.(log := s.log + [h]))
  {
    hide Justified, CacheOk, TasksOk, Honest;
    Logs(ttl, s.log, h);
    CacheStays(s.log, h, s.cache);
    TasksStay(s.log, [h], s.tasks);
  }

  /** So does moving one request to a phase it has earned. */
  lemma MoveKeeps(ttl: nat, s: Proxy, i: nat, t: Task)
    requires Inv(ttl, s) && TaskOk(s.log, t)
    ensures Inv(ttl, s.(tasks := s.tasks[i := t]))
  {
    hide TaskOk, CacheOk, Honest;
  }

  lemma FirstPhaseOk(log: Log, r: Request)
    ensures TaskOk(log, Task(r, FirstPhase(r)))
  {
  }

  /** A request goes on with the value it has just found or stored. */
  lemma ProceedKeeps(ttl: nat, s: Proxy, i: nat, r: Request, kind: Kind, id: Text, value: Json)
    requires Inv(ttl, s) && OnTask(s.log, r, kind, id) && Backed(s.log, kind, id, value)
    requires s.log != []
    requires var h := s.log[|s.log| - 1]; (h.Hit? || h.Stored?) && h.kind == kind && h.id == id && h.value == value
    ensures Inv(ttl, Proceed(s, i, r, kind, value))
  {
    hide Inv, Backed, CoinType, TypedBy;
    assert TaskOk(s.log, Task(r, Done));
    if r.GetMetadata? && kind == ObjectKind {
      TypeIsFound(value);
      assert HasCoin(s.log, id, CoinType(value));
      match CoinType(value) {
        case None =>
          LogKeeps(ttl, s, Answered(r, NotFound));
          MoveKeeps(ttl, s.(log := s.log + [Answered(r, NotFound)]), i, Task(r, Done));
        case Some(t) =>
          MoveKeeps(ttl, s, i, Task(r, Looking(Metadata, t)));
      }
    } else {
      LogKeeps(ttl, s, Answered(r, Found(value)));
      MoveKeeps(ttl, s.(log := s.log + [Answered(r, Found(value))]), i, Task(r, Done));
    }
  }

  lemma LookKeeps(ttl: nat, s: Proxy, i: nat, r: Request, kind: Kind, id: Text, now: int)
    requires Inv(ttl, s) && OnTask(s.log, r, kind, id)
    ensures Inv(ttl, LookStep(ttl, s, i, r, kind, id, now))
  {
    hide OnTask, TasksOk, Backed, LastStore, Honest, Proceed;
    var key := Key(kind, id);
    if Live(ttl, s.cache, key, now) {
      var v := s.cache[key].value;
      LogKeeps(ttl, s, Hit(kind, id, v, now));
      OnTaskStays(s.log, [Hit(kind, id, v, now)], r, kind, id);
      BackedStays(s.log, [Hit(kind, id, v, now)], kind, id, v);
      ProceedKeeps(ttl, s.(log := s.log + [Hit(kind, id, v, now)]), i, r, kind, id, v);
    } else {
      var dropped := s.(cache := s.cache - {key});
      assert CacheOk(dropped.log, dropped.cache);
      MoveKeeps(ttl, dropped, i, Task(r, Fetching(kind, id)));
    }
  }

  lemma SaidAbsentMisses(log: Log, r: Request, kind: Kind, id: Text)
    requires OnTask(log, r, kind, id) && SaidAbsent(log, kind, id) && kind != Metadata
    ensures MayMiss(log, r)
  {
  }

  lemma ReceiveKeeps(ttl: nat, s: Proxy, i: nat, r: Request, kind: Kind, id: Text, reply: Option<Json>)
    requires Inv(ttl, s) && OnTask(s.log, r, kind, id)
    ensures Inv(ttl, ReceiveStep(s, i, r, kind, id, reply))
  {
    hide Inv, OnTask, HasCoin;
    hide Worth, Shape, Exists;
    var h := match reply case None => Errored(kind, id) case Some(v) => Replied(kind, id, v);
    var log := s.log + [h];
    var heard := s.(log := log);
    LogKeeps(ttl, s, h);
    OnTaskStays(s.log, [h], r, kind, id);
    assert h in log;
    match reply {
      case None =>
        assert log + [Answered(r, Failed)] == s.log + [h, Answered(r, Failed)];
        LogKeeps(ttl, heard, Answered(r, Failed));
        MoveKeeps(ttl, heard.(log := log + [Answered(r, Failed)]), i, Task(r, Done));
      case Some(v) =>
        if Shape(kind, id, v).Some? { ShapeIsWorth(kind, id, v, Shape(kind, id, v).value); }
        if Shape(kind, id, v).None? {
          ShapeIsWorth(kind, id, v, Null);
          assert log + [Answered(r, NotFound)] == s.log + [h, Answered(r, NotFound)];
          SaidAbsentMisses(log, r, kind, id);
          LogKeeps(ttl, heard, Answered(r, NotFound));
          MoveKeeps(ttl, heard.(log := log + [Answered(r, NotFound)]), i, Task(r, Done));
        } else {
          assert Backed(log, kind, id, Shape(kind, id, v).value);
          MoveKeeps(ttl, heard, i, Task(r, Saving(kind, id, Shape(kind, id, v).value)));
        }
    }
  }

  lemma SaveKeeps(ttl: nat, s: Proxy, i: nat, r: Request, kind: Kind, id: Text, value: Json, at: int)
    requires Inv(ttl, s) && OnTask(s.log, r, kind, id) && Backed(s.log, kind, id, value)
    ensures Inv(ttl, SaveStep(s, i, r, kind, id, value, at))
  {
    hide CacheOk, TasksOk, Honest, OnTask, Backed, Proceed;
    var h := Stored(kind, id, value, at);
    Logs(ttl, s.log, h);
    CacheStores(s.log, s.cache, kind, id, value, at);
    TasksStay(s.log, [h], s.tasks);
    OnTaskStays(s.log, [h], r, kind, id);
    BackedStays(s.log, [h], kind, id, value);
    var stored := s.(cache := Put(s.cache, Key(kind, id), value, at), log := s.log + [h]);
    ProceedKeeps(ttl, stored, i, r, kind, id, value);
  }

  /** Every step of every request keeps the invariant. */
  lemma StepKeeps(ttl: nat, s: Proxy, a: Action)
    requires Inv(ttl, s)
    ensures Inv(ttl, Step(ttl, s, a))
  {
    hide CacheOk, Honest, OnTask, Backed, LookStep, ReceiveStep, SaveStep, FirstPhase;
    if a.Begin? {
      FirstPhaseOk(s.log, a.request);
      MoveKeeps(ttl, s, a.task, Task(a.request, FirstPhase(a.request)));
    } else if a.task in s.tasks {
      var t := s.tasks[a.task];
      assert TaskOk(s.log, t);
      match (a, t.phase) {
        case (Look(i, now), Looking(kind, id)) => LookKeeps(ttl, s, i, t.request, kind, id, now);
        case (Receive(i, reply), Fetching(kind, id)) => ReceiveKeeps(ttl, s, i, t.request, kind, id, reply);
        case (Save(i, at), Saving(kind, id, value)) => SaveKeeps(ttl, s, i, t.request, kind, id, value, at);
        case _ =>
      }
    }
  }

  lemma {:induction false} EveryRunIsHonest(ttl: nat, actions: seq<Action>)
    ensures Inv(ttl, Run(ttl, actions))
  {
    hide Step;
    if actions != [] {
      EveryRunIsHonest(ttl, actions[..|actions| - 1]);
      StepKeeps(ttl, Run(ttl, actions[..|actions| - 1]), actions[|actions| - 1]);
    }
  }

  // ------------------------------------------------------------------ what every run keeps

  lemma {:induction false} HonestAt(ttl: nat, log: Log, i: nat)
    requires Honest(ttl, log) && i < |log|
    ensures Justified(ttl, log[..i], log[i])
  {
    hide Justified;
    if i < |log| - 1 {
      HonestAt(ttl, log[..|log| - 1], i);
      assert log[..|log| - 1][..i] == log[..i];
    }
  }

  predicate StoresAt(log: Log, kind: Kind, id: Text, j: nat) {
    j < |log| && log[j].Stored? && log[j].kind == kind && log[j].id == id
  }

  lemma {:induction false} LastStoreAt(log: Log, kind: Kind, id: Text) returns (j: nat)
    requires LastStore(log, kind, id).Some?
    ensures var e := LastStore(log, kind, id).value; j < |log| && log[j] == Stored(kind, id, e.value, e.at)
    ensures forall k: nat :: j < k < |log| ==> !StoresAt(log, kind, id, k)
  {
    var n := |log| - 1;
    if StoresAt(log, kind, id, n) {
      j := n;
    } else {
      j := LastStoreAt(log[..n], kind, id);
      forall k | j < k < |log| ensures !StoresAt(log, kind, id, k) {
        assert k < n ==> !StoresAt(log[..n], kind, id, k);
      }
    }
  }

  /**
   In every run, whatever is served from the cache was the last value stored for that kind and id,
   less than `ttl` before the lookup's reading, and the source had given it before it was stored.
   */
  lemma ServedIsFresh(ttl: nat, actions: seq<Action>, i: nat)
    requires i < |Run(ttl, actions).log| && Run(ttl, actions).log[i].Hit?
    ensures var log := Run(ttl, actions).log;
            exists j: nat :: StoresAt(log, log[i].kind, log[i].id, j) && j < i
                     && log[j].value == log[i].value && 0 < ttl && log[i].now - log[j].at < ttl
                     && (forall k: nat :: j < k < i ==> !StoresAt(log, log[i].kind, log[i].id, k))
                     && Backed(log[..j], log[i].kind, log[i].id, log[i].value)
  {
    hide Run, Inv, Backed, LastStore;
    var log := Run(ttl, actions).log;
    Checked(ttl, actions, i);
    var h := log[i];
    var j := LastStoreAt(log[..i], h.kind, h.id);
    assert StoresAt(log, h.kind, h.id, j);
    forall k | j < k < i ensures !StoresAt(log, h.kind, h.id, k) { assert !StoresAt(log[..i], h.kind, h.id, k); }
    Checked(ttl, actions, j);
  }

  lemma Checked(ttl: nat, actions: seq<Action>, i: nat)
    requires i < |Run(ttl, actions).log|
    ensures Justified(ttl, Run(ttl, actions).log[..i], Run(ttl, actions).log[i])
  {
    hide Run, Justified, Honest;
    EveryRunIsHonest(ttl, actions);
    HonestAt(ttl, Run(ttl, actions).log, i);
  }

  /** In every run, answers say what the source said about the thing asked for. */
  lemma AnswersComeFromTheSource(ttl: nat, actions: seq<Action>, i: nat)
    requires i < |Run(ttl, actions).log| && Run(ttl, actions).log[i].Answered?
    ensures var log := Run(ttl, actions).log;
            match log[i].answer
            case Found(v) => MayFind(log[..i], log[i].request, v)
            case NotFound => MayMiss(log[..i], log[i].request)
            case Failed => i > 0 && log[i - 1].Errored?
  {
    hide Run, MayFind, MayMiss;
    Checked(ttl, actions, i);
  }

  /** In every run, what is stored as an object or as legal docs was found. */
  lemma StoredWasFound(ttl: nat, actions: seq<Action>, i: nat)
    requires i < |Run(ttl, actions).log|
    requires Run(ttl, actions).log[i].Stored? && Run(ttl, actions).log[i].kind != Metadata
    ensures var log := Run(ttl, actions).log;
            exists h <- log[..i] ::
              && h.Replied? && h.kind == log[i].kind && h.id == log[i].id && Exists(h.reply)
              && if log[i].kind == ObjectKind then log[i].value == h.reply else RefsOf(log[i].value, h.reply)
  {
    hide Run, Exists, RefsOf;
    var log := Run(ttl, actions).log;
    Checked(ttl, actions, i);
    var h :| h in log[..i] && h.Replied? && h.kind == log[i].kind && h.id == log[i].id
             && Worth(h.kind, h.id, h.reply, log[i].value);
  }

  function NoMetadata(coinType: Text): Json {
    Obj(map["coin_type" := Str(coinType), "symbol" := Null, "name" := Null, "decimals" := Null])
  }

  /** The source has nothing: no object, or coin metadata of which no member is there. */
  predicate Absent(kind: Kind, reply: Json) {
    if kind == Metadata then
      var f := if reply.Obj? && "data" in reply.fields then reply.fields["data"] else reply;
      Field(f, "symbol") == Null && Field(f, "name") == Null && Field(f, "decimals") == Null
    else !Exists(reply)
  }

  /**
   A request whose fetch found nothing goes on to store something if and only if it is about coin
   metadata, and then it stores nulls; a failed fetch stores nothing.
   */
  lemma AbsenceIsCachedIff(ttl: nat, s: Proxy, i: nat, reply: Option<Json>)
    requires i in s.tasks && s.tasks[i].phase.Fetching?
    requires reply.Some? ==> Absent(s.tasks[i].phase.kind, reply.value)
    ensures var before, t := s.tasks[i].phase, Step(ttl, s, Receive(i, reply));
            && t.cache == s.cache
            && (t.tasks[i].phase.Saving? <==> reply.Some? && before.kind == Metadata)
            && (t.tasks[i].phase.Saving? ==> t.tasks[i].phase == Saving(Metadata, before.id, NoMetadata(before.id)))
  {
    hide Key;
  }

  /** Coin metadata that the source does not have is stored as nulls, and served to others while it lives. */
  lemma MissingMetadataIsServed(ttl: nat, s: Proxy, i: nat, at: int, k: nat, now: int)
    requires i in s.tasks && k in s.tasks && k != i
    requires s.tasks[i].request.GetMetadata? && s.tasks[i].phase.Fetching? && s.tasks[i].phase.kind == Metadata
    requires s.tasks[k].request.GetMetadata? && s.tasks[k].phase == Looking(Metadata, s.tasks[i].phase.id)
    requires 0 < ttl && now - at < ttl
    ensures var saved := Step(ttl, Step(ttl, s, Receive(i, Some(Null))), Save(i, at));
            var served := Step(ttl, saved, Look(k, now));
            served.log == saved.log + [Hit(Metadata, s.tasks[i].phase.id, NoMetadata(s.tasks[i].phase.id), now),
                                       Answered(s.tasks[k].request, Found(NoMetadata(s.tasks[i].phase.id)))]
  {
    hide Key;
    var id := s.tasks[i].phase.id;
    assert CoinMetadata(id, Null) == NoMetadata(id);
    var told := Step(ttl, s, Receive(i, Some(Null)));
    assert told.tasks[i] == Task(s.tasks[i].request, Saving(Metadata, id, NoMetadata(id)));
    var saved := Step(ttl, told, Save(i, at));
    assert saved.cache[Key(Metadata, id)] == Entry(at, NoMetadata(id));
    assert saved.tasks[k] == s.tasks[k];
  }

  /** A request is served from the cache exactly while the entry is younger than `ttl`, and otherwise asks. */
  lemma LookServesIff(ttl: nat, s: Proxy, i: nat, now: int)
    requires i in s.tasks && s.tasks[i].phase.Looking?
    ensures var Task(r, Looking(kind, id)) := s.tasks[i];
            var key, t := Key(kind, id), Step(ttl, s, Look(i, now));
            if key in s.cache && 0 < ttl && now - s.cache[key].at < ttl then
              t.cache == s.cache && s.log + [Hit(kind, id, s.cache[key].value, now)] <= t.log
            else
              t.log == s.log && t.cache == s.cache - {key} && t.tasks == s.tasks[i := Task(r, Fetching(kind, id))]
  {
    hide Key, CoinType;
  }

  /** The entry under a key, if a lookup at this reading hits it. */
  predicate Hits(ttl: nat, cache: Cache, kind: Kind, id: Text, now: int, v: Json) {
    var key := Key(kind, id);
    key in cache && cache[key].value == v && 0 < ttl && now - cache[key].at < ttl
  }

  /**
   A new request whose object or legal docs are cached is answered from the cache alone, and so is one
   for metadata when both the accumulator and the metadata of its coin type are cached.
   */
  lemma FreshIsServed(ttl: nat, s: Proxy, i: nat, id: Text, now: int, v: Json, t: Text, later: int, m: Json)
    requires i !in s.tasks
    ensures Hits(ttl, s.cache, ObjectKind, id, now, v) ==>
              Step(ttl, Step(ttl, s, Begin(i, GetObject(id))), Look(i, now)).log
                == s.log + [Hit(ObjectKind, id, v, now), Answered(GetObject(id), Found(v))]
    ensures Hits(ttl, s.cache, LegalDocs, id, now, v) ==>
              Step(ttl, Step(ttl, s, Begin(i, GetLegalDocs(id))), Look(i, now)).log
                == s.log + [Hit(LegalDocs, id, v, now), Answered(GetLegalDocs(id), Found(v))]
    ensures Hits(ttl, s.cache, ObjectKind, id, now, v) && TypedBy(v, Some(t))
            && Hits(ttl, s.cache, Metadata, t, later, m) ==>
              Step(ttl, Step(ttl, Step(ttl, s, Begin(i, GetMetadata(id))), Look(i, now)), Look(i, later)).log
                == s.log + [Hit(ObjectKind, id, v, now), Hit(Metadata, t, m, later),
                            Answered(GetMetadata(id), Found(m))]
  {
    hide Key, CoinType, TypedBy;
    TypeIsFound(v);
    var r := GetMetadata(id);
    if Hits(ttl, s.cache, ObjectKind, id, now, v) && TypedBy(v, Some(t)) {
      var begun := Step(ttl, s, Begin(i, r));
      assert begun.tasks[i] == Task(r, Looking(ObjectKind, id));
      var found := Step(ttl, begun, Look(i, now));
      assert found.log == s.log + [Hit(ObjectKind, id, v, now)] && found.cache == s.cache;
      assert found.tasks[i] == Task(r, Looking(Metadata, t));
    }
  }

  // ------------------------------------------------------------------ one answer for each request

  function DoneTasks(tasks: map<nat, Task>): set<nat> {
    set i <- tasks | tasks[i].phase.Done?
  }

  /** How many answers a log holds. */
  function Answers(log: Log): nat {
    if log == [] then 0 else Answers(log[..|log| - 1]) + if log[|log| - 1].Answered? then 1 else 0
  }

  lemma AnswersSnoc(log: Log, h: Happening)
    ensures Answers(log + [h]) == Answers(log) + if h.Answered? then 1 else 0
  {
    assert (log + [h])[..|log|] == log;
  }

  lemma AnswersTwo(log: Log, h: Happening, k: Happening)
    ensures Answers(log + [h, k]) == Answers(log) + (if h.Answered? then 1 else 0) + if k.Answered? then 1 else 0
  {
    AnswersSnoc(log, h);
    AnswersSnoc(log + [h], k);
    assert log + [h, k] == log + [h] + [k];
  }

  lemma MovesOn(tasks: map<nat, Task>, i: nat, t: Task)
    requires i !in tasks || !tasks[i].phase.Done?
    ensures |DoneTasks(tasks[i := t])| == |DoneTasks(tasks)| + if t.phase.Done? then 1 else 0
  {
    var before := DoneTasks(tasks);
    assert i !in before;
    if t.phase.Done? {
      assert DoneTasks(tasks[i := t]) == before + {i};
    } else {
      assert DoneTasks(tasks[i := t]) == before;
    }
  }

  /** As many more requests are done as there are more answers. */
  ghost predicate Balanced(s: Proxy, t: Proxy) {
    |DoneTasks(t.tasks)| - |DoneTasks(s.tasks)| == Answers(t.log) - Answers(s.log)
  }

  lemma ProceedAnswers(s: Proxy, i: nat, r: Request, kind: Kind, value: Json)
    requires i in s.tasks && !s.tasks[i].phase.Done?
    ensures Balanced(s, Proceed(s, i, r, kind, value))
  {
    hide DoneTasks, Answers, CoinType;
    MovesOn(s.tasks, i, Task(r, Done));
    if r.GetMetadata? && kind == ObjectKind {
      match CoinType(value) {
        case None => AnswersSnoc(s.log, Answered(r, NotFound));
        case Some(t) => MovesOn(s.tasks, i, Task(r, Looking(Metadata, t)));
      }
    } else {
      AnswersSnoc(s.log, Answered(r, Found(value)));
    }
  }

  lemma ReceiveAnswers(s: Proxy, i: nat, r: Request, kind: Kind, id: Text, reply: Option<Json>)
    requires i in s.tasks && !s.tasks[i].phase.Done?
    ensures Balanced(s, ReceiveStep(s, i, r, kind, id, reply))
  {
    hide DoneTasks, Answers, Shape;
    MovesOn(s.tasks, i, Task(r, Done));
    match reply {
      case None => AnswersTwo(s.log, Errored(kind, id), Answered(r, Failed));
      case Some(v) =>
        match Shape(kind, id, v) {
          case None => AnswersTwo(s.log, Replied(kind, id, v), Answered(r, NotFound));
          case Some(w) =>
            MovesOn(s.tasks, i, Task(r, Saving(kind, id, w)));
            AnswersSnoc(s.log, Replied(kind, id, v));
        }
    }
  }

  lemma StepAnswers(ttl: nat, s: Proxy, a: Action)
    ensures Balanced(s, Step(ttl, s, a))
  {
    hide DoneTasks, Answers, Proceed, ReceiveStep, Lookup, Key, FirstPhase;
    if a.Begin? {
      StartsUndone(a.request);
      if a.task !in s.tasks { MovesOn(s.tasks, a.task, Task(a.request, FirstPhase(a.request))); }
    } else if a.task in s.tasks {
      var r := s.tasks[a.task].request;
      match (a, s.tasks[a.task].phase) {
        case (Look(i, now), Looking(kind, id)) =>
          var (value, cache) := Lookup(ttl, s.cache, Key(kind, id), now);
          match value {
            case Some(v) =>
              AnswersSnoc(s.log, Hit(kind, id, v, now));
              ProceedAnswers(s.(cache := cache, log := s.log + [Hit(kind, id, v, now)]), i, r, kind, v);
            case None => MovesOn(s.tasks, i, Task(r, Fetching(kind, id)));
          }
        case (Receive(i, reply), Fetching(kind, id)) => ReceiveAnswers(s, i, r, kind, id, reply);
        case (Save(i, at), Saving(kind, id, v)) =>
          AnswersSnoc(s.log, Stored(kind, id, v, at));
          var log := s.log + [Stored(kind, id, v, at)];
          ProceedAnswers(s.(cache := Put(s.cache, Key(kind, id), v, at), log := log), i, r, kind, v);
        case _ =>
      }
    }
  }

  lemma StartsUndone(r: Request)
    ensures !FirstPhase(r).Done?
  {
  }

  /** Every request is answered once: in every interleaving there are as many answers as requests done. */
  lemma {:induction false} OneAnswerForEachRequest(ttl: nat, actions: seq<Action>)
    ensures |DoneTasks(Run(ttl, actions).tasks)| == Answers(Run(ttl, actions).log)
  {
    if actions == [] {
      assert DoneTasks(map[]) == {};
    } else {
      var n := |actions| - 1;
      hide Step, Answers, DoneTasks;
      OneAnswerForEachRequest(ttl, actions[..n]);
      StepAnswers(ttl, Run(ttl, actions[..n]), actions[n]);
    }
  }

  /** A request that is done does nothing more. */
  lemma DoneStays(ttl: nat, s: Proxy, a: Action)
    requires a.task in s.tasks && s.tasks[a.task].phase.Done?
    ensures Step(ttl, s, a) == s
  {
  }

  // ------------------------------------------------------------------ what a reply decides

  /** Whatever other requests do, a request that is about to store stays so. */
  lemma {:induction false} SavingStays(ttl: nat, s: Proxy, i: nat, actions: seq<Action>)
    requires i in s.tasks && s.tasks[i].phase.Saving?
    requires forall a <- actions :: a.Save? ==> a.task != i
    ensures i in After(ttl, s, actions).tasks && After(ttl, s, actions).tasks[i] == s.tasks[i]
  {
    if actions != [] {
      var n := |actions| - 1;
      assert actions[n] in actions && forall a <- actions[..n] :: a in actions;
      SavingStays(ttl, s, i, actions[..n]);
      OthersLeave(ttl, After(ttl, s, actions[..n]), i, actions[n]);
    }
  }

  lemma OthersLeave(ttl: nat, s: Proxy, i: nat, a: Action)
    requires i in s.tasks && s.tasks[i].phase.Saving? && (a.Save? ==> a.task != i)
    ensures i in Step(ttl, s, a).tasks && Step(ttl, s, a).tasks[i] == s.tasks[i]
  {
    hide Key, Lookup, CoinType, Shape;
  }

  /**
   The reply to a request for an object or for legal docs decides it, whatever other requests do before
   it stores. If the reply is no object with a non-null `data`, the request is answered NotFound at once
   and stores nothing; otherwise what the reply is worth is stored and answered as found.
   */
  lemma ReplyDecides(ttl: nat, s: Proxy, i: nat, reply: Json, others: seq<Action>, at: int)
    requires i in s.tasks && s.tasks[i].phase.Fetching? && !s.tasks[i].request.GetMetadata?
    requires s.tasks[i].phase.kind != Metadata && forall a <- others :: a.Save? ==> a.task != i
    ensures var Task(r, before) := s.tasks[i];
            var told := Step(ttl, s, Receive(i, Some(reply)));
            if !Exists(reply) then
              && told.log == s.log + [Replied(before.kind, before.id, reply), Answered(r, NotFound)]
              && told.cache == s.cache && told.tasks == s.tasks[i := Task(r, Done)]
            else
              var next := After(ttl, told, others);
              var saved := Step(ttl, next, Save(i, at));
              exists w ::
                && Worth(before.kind, before.id, reply, w)
                && saved.log == next.log + [Stored(before.kind, before.id, w, at), Answered(r, Found(w))]
                && saved.cache == next.cache[Key(before.kind, before.id) := Entry(at, w)]
  {
    hide Worth, Shape, Exists, Key;
    var Task(r, before) := s.tasks[i];
    if Shape(before.kind, before.id, reply).Some? {
      ShapeIsWorth(before.kind, before.id, reply, Shape(before.kind, before.id, reply).value);
    } else {
      ShapeIsWorth(before.kind, before.id, reply, Null);
    }
    if !Exists(reply) { AbsentHasNoShape(before.kind, before.id, reply); }
    var told := Step(ttl, s, Receive(i, Some(reply)));
    if Exists(reply) {
      var w := Shape(before.kind, before.id, reply).value;
      assert told.tasks[i] == Task(r, Saving(before.kind, before.id, w));
      SavingStays(ttl, told, i, others);
      hide After;
    }
  }

  lemma AbsentHasNoShape(kind: Kind, id: Text, reply: Json)
    requires kind != Metadata && !Exists(reply)
    ensures Shape(kind, id, reply) == None
  {
  }
}
