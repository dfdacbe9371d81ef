/** The per-conversation context cache: last good pack, deltas handed out once, and epochs that keep a late
  * answer out of a purged scope (`src/niadra/_cache.py`). Clock readings are parameters. */
module PackCache {
  import opened Basics
  import opened OrderedDict

  const MAX_EPOCHS: nat := 4096

  /** An answer: `outside` stands for the fields that live outside the pinned pack, `blocks` for the include
    * blocks the answer carries. */
  datatype Context = Context(
    etag: Option<string>, text: string, outside: string, blocks: map<string, string>,
    delta: Option<string>, notModified: bool, degraded: bool, origin: string)

  datatype Entry = Entry(context: Context, storedAt: real, scope: string, deltas: seq<string>)

  datatype CacheOptions = CacheOptions(
    ttl: real, staleWhileRevalidate: real, maxStale: real, maxEntries: nat)

  datatype Freshness = Fresh | Stale | Expired
  datatype Hit = Hit(context: Context, freshness: Freshness)

  /** What an API call failed with, as far as the cache cares. */
  datatype Failure = Authentication | PermissionDenied | OtherFailure

  datatype Cache = Cache(entries: Ordered<string, Entry>, epochs: Ordered<string, nat>)

  const EMPTY := Cache(Ordered([], map[]), Ordered([], map[]))

  /** Python's `"\n\n".join(deltas) or None`. */
  function Joined(deltas: seq<string>): Option<string> {
    var text := Join(deltas);
    if text == "" then None else Some(text)
  }

  function Join(deltas: seq<string>): string {
    if deltas == [] then ""
    else if |deltas| == 1 then deltas[0]
    else Join(deltas[..|deltas| - 1]) + "\n\n" + deltas[|deltas| - 1]
  }

  /** The delta an answer brings, if any. */
  function DeltaOf(response: Context): seq<string> {
    if response.delta.Some? && response.delta.value != "" then [response.delta.value] else []
  }

  function Aged(e: Entry, origin: string): Context { e.context.(origin := origin) }

  function HandOut(e: Entry, context: Context): Context { context.(delta := Joined(e.deltas)) }

  function Handed(e: Entry): Entry { e.(deltas := []) }

  predicate TooOld(o: CacheOptions, e: Entry, now: real) { now - e.storedAt > o.maxStale }

  predicate Live(o: CacheOptions, c: Cache, key: string, now: real) {
    key in c.entries.items && !TooOld(o, c.entries.items[key], now)
  }

  /** Drops the entry when it is past `max_stale`. */
  function DropOld(o: CacheOptions, c: Cache, key: string, now: real): Cache {
    if key in c.entries.items && TooOld(o, c.entries.items[key], now)
    then c.(entries := c.entries.Remove(key)) else c
  }

  function FreshnessOf(o: CacheOptions, e: Entry, pinned: bool, now: real): Freshness {
    var age := now - e.storedAt;
    if age < o.ttl then Fresh
    else if pinned || age < o.ttl + o.staleWhileRevalidate then Stale
    else Expired
  }

  function AfterGet(o: CacheOptions, c: Cache, key: string, pinned: bool, now: real): Cache {
    if !Live(o, c, key, now) then DropOld(o, c, key, now)
    else
      var e := c.entries.items[key];
      var expired := FreshnessOf(o, e, pinned, now).Expired?;
      c.(entries := c.entries.MoveIn(key, if expired then e else Handed(e)))
  }

  function GetResult(o: CacheOptions, c: Cache, key: string, pinned: bool, now: real): Option<Hit> {
    if !Live(o, c, key, now) then None
    else
      var e := c.entries.items[key];
      match FreshnessOf(o, e, pinned, now)
      case Fresh => Some(Hit(HandOut(e, Aged(e, "cache")), Fresh))
      case Stale => Some(Hit(HandOut(e, Aged(e, "stale")), Stale))
      case Expired => Some(Hit(e.context, Expired))
  }

  function EpochOf(c: Cache, scope: string): nat { if scope in c.epochs.items then c.epochs.items[scope] else 0 }

  /** Whether an answer goes into the cache at all: its read's epoch holds, and it brings a pack or an entry
    * is there for it. */
  predicate Stores(c: Cache, key: string, scope: string, response: Context, epoch: Option<nat>) {
    && (epoch.Some? ==> EpochOf(c, scope) == epoch.value)
    && (key in c.entries.items || !(response.notModified || response.degraded))
  }

  predicate SamePack(c: Cache, key: string, response: Context) {
    key in c.entries.items && c.entries.items[key].context.etag == response.etag
  }

  /** The entry an absorbed answer leaves, before any delta of it is handed out. */
  function Folded(c: Cache, key: string, scope: string, response: Context, now: real): Entry {
    if key in c.entries.items && response.notModified then
      var e := c.entries.items[key];
      e.(context := e.context.(outside := response.outside, blocks := e.context.blocks + response.blocks),
         storedAt := now, deltas := e.deltas + DeltaOf(response))
    else if key in c.entries.items && response.degraded then
      var e := c.entries.items[key];
      e.(deltas := e.deltas + DeltaOf(response))
    else
      var kept := if SamePack(c, key, response) then c.entries.items[key].deltas else [];
      Entry(response.(delta := None), now, scope, kept + DeltaOf(response))
  }

  function AfterAbsorb(o: CacheOptions, c: Cache, key: string, scope: string, response: Context,
                       deliver: bool, epoch: Option<nat>, now: real): Cache {
    if !Stores(c, key, scope, response, epoch) then c
    else
      var e := Folded(c, key, scope, response, now);
      var entries := c.entries.MoveIn(key, if deliver then Handed(e) else e);
      var newPack := !(key in c.entries.items && (response.notModified || response.degraded));
      c.(entries := if newPack then entries.Trim(o.maxEntries) else entries)
  }

  function AbsorbResult(c: Cache, key: string, scope: string, response: Context,
                        deliver: bool, epoch: Option<nat>, now: real): Context {
    if !Stores(c, key, scope, response, epoch) then response
    else
      var e := Folded(c, key, scope, response, now);
      var shown :=
        if key in c.entries.items && response.notModified then Aged(e, "cache")
        else if key in c.entries.items && response.degraded then Aged(e, "last_good").(degraded := true)
        else response;
      if deliver then HandOut(e, shown) else shown
  }

  function AfterFallback(o: CacheOptions, c: Cache, key: string, failure: Failure, now: real): Cache {
    match failure
    case Authentication => c.(entries := Ordered([], map[]))
    case PermissionDenied => c.(entries := c.entries.Remove(key))
    case OtherFailure =>
      if !Live(o, c, key, now) then DropOld(o, c, key, now)
      else c.(entries := c.entries.Replace(key, Handed(c.entries.items[key])))
  }

  function FallbackResult(o: CacheOptions, c: Cache, key: string, failure: Failure, now: real): Option<Context> {
    if !failure.OtherFailure? || !Live(o, c, key, now) then None
    else
      var e := c.entries.items[key];
      Some(HandOut(e, Aged(e, "last_good").(degraded := true)))
  }

  function KeysOf(entries: Ordered<string, Entry>, scope: string): set<string> {
    set k | k in entries.items && entries.items[k].scope == scope
  }

  function AfterPurgeScope(c: Cache, scope: string): Cache {
    Cache(c.entries.RemoveAll(KeysOf(c.entries, scope)), c.epochs.MoveIn(scope, EpochOf(c, scope) + 1).Trim(MAX_EPOCHS))
  }

  ghost predicate ValidCache(c: Cache) { c.entries.Valid() && c.epochs.Valid() }

  class ContextCache {
    const options: CacheOptions
    var entries: Ordered<string, Entry>
    var epochs: Ordered<string, nat>
    var refreshing: set<string>

    ghost function View(): Cache
      reads this
    {
      Cache(entries, epochs)
    }

    ghost predicate Valid()
      reads this
    {
      ValidCache(View())
    }

    constructor (options: CacheOptions)
      ensures this.options == options && View() == EMPTY && refreshing == {} && Valid()
    {
      this.options := options;
      entries, epochs, refreshing := Ordered([], map[]), Ordered([], map[]), {};
    }

    method FindLive(key: string, now: real) returns (entry: Option<Entry>)
      requires Valid()
      modifies this`entries
      ensures Valid() && View() == DropOld(options, old(View()), key, now)
      ensures entry == if Live(options, old(View()), key, now) then Some(old(entries).items[key]) else None
    {
      if key in entries.items {
        var e := entries.items[key];
        if now - e.storedAt > options.maxStale {
          RemoveKeepsValid(entries, key);
          entries := entries.Remove(key);
          return None;
        }
        return Some(e);
      }
      return None;
    }

    method Get(key: string, pinned: bool, now: real) returns (hit: Option<Hit>)
      requires Valid()
      modifies this`entries
      ensures Valid() && View() == AfterGet(options, old(View()), key, pinned, now)
      ensures hit == GetResult(options, old(View()), key, pinned, now)
    {
      var found := FindLive(key, now);
      if found.None? {
        return None;
      }
      var e := found.value;
      MoveInKeepsValid(entries, key, e);
      MoveInKeepsValid(entries, key, Handed(e));
      var age := now - e.storedAt;
      if age < options.ttl {
        entries := entries.MoveIn(key, Handed(e));
        return Some(Hit(HandOut(e, Aged(e, "cache")), Fresh));
      }
      if pinned || age < options.ttl + options.staleWhileRevalidate {
        entries := entries.MoveIn(key, Handed(e));
        return Some(Hit(HandOut(e, Aged(e, "stale")), Stale));
      }
      entries := entries.MoveIn(key, e);
      return Some(Hit(e.context, Expired));
    }

    method Epoch(scope: string) returns (epoch: nat)
      ensures epoch == EpochOf(View(), scope)
    {
      epoch := if scope in epochs.items then epochs.items[scope] else 0;
    }

    method Absorb(key: string, scope: string, response: Context, deliver: bool, epoch: Option<nat>, now: real)
      returns (shown: Context)
      requires Valid()
      modifies this`entries
      ensures Valid() && View() == AfterAbsorb(options, old(View()), key, scope, response, deliver, epoch, now)
      ensures shown == AbsorbResult(old(View()), key, scope, response, deliver, epoch, now)
    {
      var current := Epoch(scope);
      if epoch.Some? && current != epoch.value {
        return response;
      }
      var delta := DeltaOf(response);
      if key in entries.items && (response.notModified || response.degraded) {
        var e := entries.items[key];
        if response.notModified {
          e := e.(context := e.context.(outside := response.outside, blocks := e.context.blocks + response.blocks),
                  storedAt := now);
          shown := Aged(e, "cache");
        } else {
          shown := Aged(e, "last_good").(degraded := true);
        }
        e := e.(deltas := e.deltas + delta);
        if deliver {
          shown, e := HandOut(e, shown), Handed(e);
        }
        MoveInKeepsValid(entries, key, e);
        entries := entries.MoveIn(key, e);
        return;
      }
      if response.notModified || response.degraded {
        return response;
      }
      var samePack := key in entries.items && entries.items[key].context.etag == response.etag;
      var kept := if samePack then entries.items[key].deltas else [];
      var entry := Entry(response.(delta := None), now, scope, kept + delta);
      shown := response;
      if deliver {
        shown, entry := HandOut(entry, shown), Handed(entry);
      }
      MoveInKeepsValid(entries, key, entry);
      entries := entries.MoveIn(key, entry);
      TrimKeepsValid(entries, options.maxEntries);
      entries := entries.Trim(options.maxEntries);
    }

    method Fallback(key: string, failure: Failure, now: real) returns (served: Option<Context>)
      requires Valid()
      modifies this`entries
      ensures Valid() && View() == AfterFallback(options, old(View()), key, failure, now)
      ensures served == FallbackResult(options, old(View()), key, failure, now)
    {
      match failure
      case Authentication =>
        entries := Ordered([], map[]);
        return None;
      case PermissionDenied =>
        Purge(key);
        return None;
      case OtherFailure =>
        var found := FindLive(key, now);
        if found.None? {
          return None;
        }
        var e := found.value;
        entries := entries.Replace(key, Handed(e));
        return Some(HandOut(e, Aged(e, "last_good").(degraded := true)));
    }

    method Purge(key: string)
      requires Valid()
      modifies this`entries
      ensures Valid() && View() == old(View()).(entries := old(entries).Remove(key))
    {
      RemoveKeepsValid(entries, key);
      entries := entries.Remove(key);
    }

    method PurgeScope(scope: string)
      requires Valid()
      modifies this`entries, this`epochs
      ensures Valid() && View() == AfterPurgeScope(old(View()), scope)
    {
      PurgeKeepsValid(View(), scope);
      var before := Epoch(scope);
      var dropped := KeysOf(entries, scope);
      entries, epochs := entries.RemoveAll(dropped), epochs.MoveIn(scope, before + 1).Trim(MAX_EPOCHS);
    }

    /** Claims the background refresh of `key`: only one runs at a time. */
    method BeginRefresh(key: string) returns (claimed: bool)
      modifies this`refreshing
      ensures claimed <==> key !in old(refreshing)
      ensures refreshing == old(refreshing) + {key}
    {
      claimed := key !in refreshing;
      refreshing := refreshing + {key};
    }

    method EndRefresh(key: string)
      modifies this`refreshing
      ensures refreshing == old(refreshing) - {key}
    {
      refreshing := refreshing - {key};
    }
  }

  lemma PurgeKeepsValid(c: Cache, scope: string)
    requires ValidCache(c)
    ensures ValidCache(AfterPurgeScope(c, scope))
  {
    RemoveAllKeepsValid(c.entries, KeysOf(c.entries, scope));
    MoveInKeepsValid(c.epochs, scope, EpochOf(c, scope) + 1);
    TrimKeepsValid(c.epochs.MoveIn(scope, EpochOf(c, scope) + 1), MAX_EPOCHS);
  }
}
