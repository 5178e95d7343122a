/**
 The Redis-backed read-through cache: the service object, the wrapper around a function, and what
 a cached call may return over a whole run of calls, expiries, failures and invalidations.

 A Redis command either takes effect or raises; a raising command may or may not have taken effect.
 */
module ReadThroughCache {
  import opened Text

  /** A JSON value; None and null are one value, which the wrapper takes for a miss. */
  datatype Value = Null | Val(json: string)

  datatype Entry = Entry(value: Value, expires: int)

  type Store = map<string, Entry>

  /** GET: an expired entry is no longer there. */
  function Lookup(store: Store, key: string, now: int, ok: bool): Value {
    if ok && key in store && now < store[key].expires then store[key].value else Null
  }

  /** SETEX of the serialised value; `json` is what reading the serialisation back gives, None when it cannot be written. */
  function Stored(json: Value -> Option<Value>, store: Store, key: string, value: Value, now: int, ttl: nat, landed: bool): Store {
    if landed && json(value).Some? then store[key := Entry(json(value).value, now + ttl)] else store
  }

  /** Only patterns made of a prefix and a star are modelled; services also pass patterns without one. */
  predicate Matches(prefix: string, key: string) {
    prefix <= key
  }

  function Without(store: Store, prefix: string): Store {
    map k | k in store && !Matches(prefix, k) :: store[k]
  }

  // ---------------------------------------------------------------------------------------
  // The service object
  // ---------------------------------------------------------------------------------------

  /**
   One round of the SCAN loop: the keys of the batch and whether the cursor is back at zero, or an
   exception.  When the given rounds run out before either, the connection is gone for good.
   */
  datatype Reply = Raises | Batch(keys: set<string>, last: bool)

  /** All keys that the rounds up to the end of the iteration report. */
  function Reported(replies: seq<Reply>): set<string> {
    if replies == [] || replies[0].Raises? then {}
    else if replies[0].last then replies[0].keys
    else replies[0].keys + Reported(replies[1..])
  }

  /** The iteration reaches cursor zero before any exception. */
  predicate Completes(replies: seq<Reply>) {
    replies != [] && replies[0].Batch? && (replies[0].last || Completes(replies[1..]))
  }

  class CacheService {
    const connected: bool
    var store: Store

    constructor (connected: bool)
      ensures this.connected == connected && store == map[]
    {
      this.connected := connected;
      store := map[];
    }

    method Get(key: string, now: int, ok: bool) returns (value: Value)
      ensures value == Lookup(store, key, now, connected && ok)
    {
      if !connected {
        return Null;
      }
      if !ok {
        return Null;
      }
      if key !in store || store[key].expires <= now {
        return Null;
      }
      return store[key].value;
    }

    /** `landed` says whether the server executed the command, `ok` whether the client saw it succeed. */
    method Set(json: Value -> Option<Value>, key: string, value: Value, ttl: nat, now: int, landed: bool, ok: bool)
      returns (success: bool)
      requires ok ==> landed
      modifies this`store
      ensures store == Stored(json, old(store), key, value, now, ttl, connected && landed)
      ensures success == (connected && ok && json(value).Some?)
    {
      if !connected {
        return false;
      }
      var serialized := json(value);
      if serialized.None? {
        return false;
      }
      if landed {
        store := store[key := Entry(serialized.value, now + ttl)];
      }
      return ok;
    }

    /** DEL: returns how many of the keys existed. */
    method Delete(keys: set<string>) returns (removed: nat)
      modifies this`store
      ensures store == old(store) - keys && removed == |old(store).Keys * keys|
    {
      removed := |store.Keys * keys|;
      store := store - keys;
    }

    /** The SCAN loop.  An exception ends it with 0, keeping what was deleted so far. */
    method DeletePattern(prefix: string, replies: seq<Reply>) returns (deleted: nat)
      requires forall k :: k in Reported(replies) ==> Matches(prefix, k)
      modifies this`store
      ensures !connected ==> deleted == 0 && store == old(store)
      ensures connected ==> store == SweptStore(old(store), replies)
      ensures connected ==> deleted == if Completes(replies) then SweptCount(old(store), replies) else 0
    {
      deleted := 0;
      if !connected {
        return;
      }
      var rest := replies;
      while rest != []
        invariant SweptStore(store, rest) == SweptStore(old(store), replies)
        invariant deleted + SweptCount(store, rest) == SweptCount(old(store), replies)
        invariant Completes(rest) <==> Completes(replies)
        decreases |rest|
      {
        var reply := rest[0];
        if reply.Raises? {
          return 0;
        }
        var n := Delete(reply.keys);
        deleted := deleted + n;
        if reply.last {
          return;
        }
        rest := rest[1..];
      }
      return 0;
    }
  }

  function SweptStore(store: Store, replies: seq<Reply>): Store
    decreases |replies|
  {
    if replies == [] || replies[0].Raises? then store
    else if replies[0].last then store - replies[0].keys
    else SweptStore(store - replies[0].keys, replies[1..])
  }

  function SweptCount(store: Store, replies: seq<Reply>): nat
    decreases |replies|
  {
    if replies == [] || replies[0].Raises? then 0
    else |store.Keys * replies[0].keys| + if replies[0].last then 0 else SweptCount(store - replies[0].keys, replies[1..])
  }

  /** The loop removes the reported keys, once each, and counts those that existed. */
  lemma {:induction false} SweepRemovesReported(store: Store, replies: seq<Reply>)
    ensures SweptStore(store, replies) == store - Reported(replies)
    ensures SweptCount(store, replies) == |store.Keys * Reported(replies)|
    decreases |replies|
  {
    if replies == [] || replies[0].Raises? {
      RemoveNone(store);
    } else if !replies[0].last {
      SweepRemovesReported(store - replies[0].keys, replies[1..]);
      RemoveTwice(store, replies[0].keys, Reported(replies[1..]));
    }
  }

  /** Round `k` brings the cursor back to zero, and every round before it went well and on. */
  predicate EndsAt(replies: seq<Reply>, k: nat) {
    && k < |replies| && replies[k].Batch? && replies[k].last
    && forall j :: 0 <= j < k ==> replies[j].Batch? && !replies[j].last
  }

  /** A deletion reports a count exactly when some round ends the scan before any exception. */
  lemma {:induction false} CompletesIff(replies: seq<Reply>)
    ensures Completes(replies) <==> exists k: nat :: EndsAt(replies, k)
  {
    if replies != [] && replies[0].Batch? && !replies[0].last {
      CompletesIff(replies[1..]);
      if k: nat :| EndsAt(replies[1..], k) {
        assert EndsAt(replies, k + 1);
      }
      if k: nat :| EndsAt(replies, k) {
        assert k > 0 && EndsAt(replies[1..], k - 1);
      }
    } else if Completes(replies) {
      assert EndsAt(replies, 0);
    }
  }

  lemma RemoveNone<K, V>(m: map<K, V>)
    ensures m - {} == m && |m.Keys * {}| == 0
  {
    assert m.Keys * {} == {};
  }

  lemma RemoveTwice<K, V>(m: map<K, V>, a: set<K>, b: set<K>)
    ensures (m - a) - b == m - (a + b)
    ensures |m.Keys * (a + b)| == |m.Keys * a| + |(m - a).Keys * b|
  {
    assert (m - a).Keys == m.Keys - a;
    assert m.Keys * (a + b) == m.Keys * a + (m.Keys - a) * b;
  }

  /** When SCAN reports every matching key, a pattern deletion removes exactly the matching entries and counts them. */
  lemma CompleteScanRemovesPattern(store: Store, prefix: string, replies: seq<Reply>)
    requires forall k :: k in Reported(replies) ==> Matches(prefix, k)
    requires forall k :: k in store && Matches(prefix, k) ==> k in Reported(replies)
    ensures SweptStore(store, replies) == Without(store, prefix)
    ensures SweptCount(store, replies) == |store.Keys| - |Without(store, prefix).Keys|
  {
    SweepRemovesReported(store, replies);
    assert store - Reported(replies) == Without(store, prefix);
  }

  /** The wrapper around a function: `computed` is what the bare function returns if it is called now. */
  method CachedCall(cache: CacheService, json: Value -> Option<Value>, key: string, computed: Value, ttl: nat, now: int,
                    readOk: bool, landed: bool, writeOk: bool)
    returns (result: Value)
    requires writeOk ==> landed
    modifies cache`store
    ensures var hit := Lookup(old(cache.store), key, now, cache.connected && readOk);
            if hit != Null then result == hit && cache.store == old(cache.store)
            else result == computed && cache.store == Stored(json, old(cache.store), key, computed, now, ttl, cache.connected && landed)
  {
    var cachedResult := cache.Get(key, now, readOk);
    if cachedResult != Null {
      return cachedResult;
    }
    result := computed;
    var _ := cache.Set(json, key, result, ttl, now, landed, writeOk);
  }

  // ---------------------------------------------------------------------------------------
  // Runs
  // ---------------------------------------------------------------------------------------

  type Call = nat

  /** What the bare function would return at one moment. */
  datatype Moment = Moment(time: int, truth: Call -> Value)

  /** A call between starting and writing its result, which its function computed at moment `seen`. */
  datatype Pending = Pending(call: Call, value: Value, seen: nat)

  /** A pattern deletion whose scan began at moment `at`. */
  datatype Invalidation = Invalidation(prefix: string, at: nat)

  /** Where a stored value comes from: its call, the moment it was computed and the moment it was written. */
  datatype Origin = Origin(call: Call, seen: nat, written: nat)

  datatype State = State(
    store: Store,
    origin: map<string, Origin>,      // of the value last stored under a key
    pending: map<nat, Pending>,
    scans: map<nat, Invalidation>,    // pattern deletions that are still scanning
    past: seq<Moment>,
    cleared: seq<Invalidation>)       // pattern deletions that have completed

  datatype Config = Config(keyOf: Call -> string, ttl: nat, json: Value -> Option<Value>)

  datatype Event =
    | Advance(seconds: nat)
    | Change(truth: Call -> Value)
    | Begin(id: nat, call: Call, readOk: bool)   // look up; on a miss start the function
    | Compute(id: nat)                           // the running function reads the data (again)
    | Finish(id: nat, landed: bool)              // write the computed result and return it
    | BeginScan(id: nat, prefix: string)
    | EndScan(id: nat, missed: set<string>)      // completes; keys written during the scan may have been missed
    | Lose(keys: set<string>)                    // eviction, restart, or what a scan deletes on its way

  function Current(s: State): Moment
    requires s.past != []
  {
    s.past[|s.past| - 1]
  }

  function Hit(cfg: Config, s: State, call: Call, readOk: bool): Value
    requires s.past != []
  {
    Lookup(s.store, cfg.keyOf(call), Current(s).time, readOk)
  }

  function Next(cfg: Config, s: State, e: Event): State
    requires s.past != []
  {
    var now, moment := Current(s), |s.past| - 1;
    var here := s.(past := s.past + [now]);
    match e
    case Advance(d) => s.(past := s.past + [Moment(now.time + d, now.truth)])
    case Change(truth) => s.(past := s.past + [Moment(now.time, truth)])
    case Begin(id, call, readOk) =>
      if Hit(cfg, s, call, readOk) != Null then here
      else here.(pending := s.pending[id := Pending(call, now.truth(call), moment)])
    case Compute(id) =>
      if id !in s.pending then here
      else here.(pending := s.pending[id := Pending(s.pending[id].call, now.truth(s.pending[id].call), moment)])
    case Finish(id, landed) =>
      if id !in s.pending then here
      else
        var p := s.pending[id];
        here.(pending := s.pending - {id},
              store := Stored(cfg.json, s.store, cfg.keyOf(p.call), p.value, now.time, cfg.ttl, landed),
              origin := if Writes(cfg, s, e) then s.origin[cfg.keyOf(p.call) := Origin(p.call, p.seen, moment)] else s.origin)
    case BeginScan(id, prefix) => here.(scans := s.scans[id := Invalidation(prefix, moment)])
    case EndScan(id, missed) =>
      if id !in s.scans then here
      else
        here.(store := map key | key in s.store && !Removes(s, e, key) :: s.store[key],
              scans := s.scans - {id}, cleared := s.cleared + [s.scans[id]])
    case Lose(keys) => here.(store := s.store - keys)
  }

  /** The completed scan deleted this key; SCAN can miss a key only if it was written after the scan began. */
  predicate Removes(s: State, e: Event, key: string) {
    && e.EndScan? && e.id in s.scans && Matches(s.scans[e.id].prefix, key)
    && !(key in e.missed && key in s.origin && s.origin[key].written >= s.scans[e.id].at)
  }

  /** A scan with no write in between removes every matching entry. */
  lemma UndisturbedScanRemovesAll(cfg: Config, s: State, id: nat, missed: set<string>)
    requires s.past != [] && id in s.scans && forall key :: key in s.origin ==> s.origin[key].written < s.scans[id].at
    ensures Next(cfg, s, EndScan(id, missed)).store == Without(s.store, s.scans[id].prefix)
  {
  }

  /** The event stores the result of a running call. */
  predicate Writes(cfg: Config, s: State, e: Event) {
    e.Finish? && e.id in s.pending && e.landed && cfg.json(s.pending[e.id].value).Some?
  }

  /** What a caller receives at this event. */
  function Result(cfg: Config, s: State, e: Event): Option<(Call, Value)>
    requires s.past != []
  {
    match e
    case Begin(_, call, readOk) => if Hit(cfg, s, call, readOk) != Null then Some((call, Hit(cfg, s, call, readOk))) else None
    case Finish(id, _) => if id in s.pending then Some((s.pending[id].call, s.pending[id].value)) else None
    case _ => None
  }

  /** A run's Begin and Finish with nothing in between are one execution of the wrapper. */
  lemma CallIsBeginThenFinish(cfg: Config, s: State, id: nat, call: Call, readOk: bool, landed: bool)
    requires s.past != [] && id !in s.pending
    ensures var hit := Lookup(s.store, cfg.keyOf(call), Current(s).time, readOk);
            var computed := Current(s).truth(call);
            var begun := Next(cfg, s, Begin(id, call, readOk));
            if hit != Null then
              Result(cfg, s, Begin(id, call, readOk)) == Some((call, hit)) && begun.store == s.store && begun.pending == s.pending
            else
              && Result(cfg, s, Begin(id, call, readOk)) == None
              && Result(cfg, begun, Finish(id, landed)) == Some((call, computed))
              && var done := Next(cfg, begun, Finish(id, landed));
                 && done.pending == s.pending
                 && done.store == Stored(cfg.json, s.store, cfg.keyOf(call), computed, Current(s).time, cfg.ttl, landed)
  {
    var begun := Next(cfg, s, Begin(id, call, readOk));
    if Hit(cfg, s, call, readOk) == Null {
      assert begun.pending - {id} == s.pending;
    }
  }

  // ---------------------------------------------------------------------------------------
  // Sound entries, and the steps that spoil one
  // ---------------------------------------------------------------------------------------

  /** Nothing matching was invalidated after moment `i`. */
  ghost predicate IsUncleared(s: State, key: string, i: nat) {
    forall c :: c in s.cleared && Matches(c.prefix, key) ==> c.at <= i
  }

  /** The entry lives no longer than ttl from its computation, and no matching invalidation began after it. */
  ghost predicate IsSound(cfg: Config, s: State, key: string)
    requires key in s.store
  {
    && key in s.origin && s.origin[key].seen < |s.past|
    && s.store[key].expires <= s.past[s.origin[key].seen].time + cfg.ttl
    && IsUncleared(s, key, s.origin[key].seen)
  }

  ghost predicate AllSound(cfg: Config, s: State) {
    forall key :: key in s.store ==> IsSound(cfg, s, key)
  }

  /** A matching invalidation that began after the function read its data has completed. */
  ghost predicate IsOvertaken(cfg: Config, s: State, p: Pending) {
    exists c :: c in s.cleared && Matches(c.prefix, cfg.keyOf(p.call)) && c.at > p.seen
  }

  /** Time has passed since the function read its data. */
  predicate IsLate(s: State, p: Pending)
    requires p.seen < |s.past|
  {
    s.past[p.seen].time < Current(s).time
  }

  /** The moments that calls, entries and invalidations refer to are past. */
  ghost predicate IsDated(s: State) {
    && s.past != []
    && (forall id :: id in s.pending ==> s.pending[id].seen < |s.past|)
    && (forall id :: id in s.scans ==> s.scans[id].at < |s.past|)
    && (forall c :: c in s.cleared ==> c.at < |s.past|)
    && (forall key :: key in s.store ==> key in s.origin && s.origin[key].seen < |s.past|)
  }

  /** The event writes this key. */
  predicate WritesTo(cfg: Config, s: State, e: Event, key: string) {
    Writes(cfg, s, e) && cfg.keyOf(s.pending[e.id].call) == key
  }

  /** A completed scan lets this entry live although its value was computed before the scan began. */
  predicate Overlooks(s: State, e: Event, key: string) {
    && e.EndScan? && e.id in s.scans && Matches(s.scans[e.id].prefix, key) && !Removes(s, e, key)
    && key in s.store && key in s.origin && s.origin[key].seen < s.scans[e.id].at
  }

  /** The event writes a result that was overtaken or is late under this key, or overlooks the key's entry. */
  ghost predicate SpoilsKey(cfg: Config, s: State, e: Event, key: string)
    requires IsDated(s)
  {
    || (WritesTo(cfg, s, e, key) && (IsOvertaken(cfg, s, s.pending[e.id]) || IsLate(s, s.pending[e.id])))
    || Overlooks(s, e, key)
  }

  ghost predicate Spoils(cfg: Config, s: State, e: Event)
    requires IsDated(s)
  {
    exists key :: SpoilsKey(cfg, s, e, key)
  }

  lemma StaysDated(cfg: Config, s: State, e: Event)
    requires IsDated(s)
    ensures var t := Next(cfg, s, e); IsDated(t) && s.past < t.past && |t.past| == |s.past| + 1
  {
  }

  /** An entry that a step does not write keeps its value and origin. */
  lemma Untouched(cfg: Config, s: State, e: Event, key: string)
    requires IsDated(s) && key in Next(cfg, s, e).store && !WritesTo(cfg, s, e, key)
    ensures key in s.store && Next(cfg, s, e).store[key] == s.store[key]
    ensures Next(cfg, s, e).origin[key] == s.origin[key]
    ensures Next(cfg, s, e).past[s.origin[key].seen] == s.past[s.origin[key].seen]
  {
  }

  /** It stays as sound as it was, unless a completed scan overlooked it. */
  lemma UntouchedIsSoundIff(cfg: Config, s: State, e: Event, key: string)
    requires IsDated(s) && key in Next(cfg, s, e).store && !WritesTo(cfg, s, e, key)
    ensures key in s.store && (IsSound(cfg, Next(cfg, s, e), key) <==> IsSound(cfg, s, key) && !Overlooks(s, e, key))
  {
    StaysDated(cfg, s, e);
    Untouched(cfg, s, e, key);
  }

  lemma WrittenIsSoundIff(cfg: Config, s: State, e: Event, key: string)
    requires IsDated(s) && WritesTo(cfg, s, e, key)
    ensures key in Next(cfg, s, e).store && (IsSound(cfg, Next(cfg, s, e), key) <==> !SpoilsKey(cfg, s, e, key))
  {
    var p := s.pending[e.id];
    assert Next(cfg, s, e).past[p.seen] == s.past[p.seen];
  }

  lemma SpoiledIsNotSound(cfg: Config, s: State, e: Event, key: string)
    requires IsDated(s) && SpoilsKey(cfg, s, e, key)
    ensures key in Next(cfg, s, e).store && !IsSound(cfg, Next(cfg, s, e), key)
  {
    if WritesTo(cfg, s, e, key) {
      WrittenIsSoundIff(cfg, s, e, key);
    } else {
      UntouchedIsSoundIff(cfg, s, e, key);
    }
  }

  /**
   A step keeps all entries sound exactly when it neither writes an overtaken or late result nor
   completes a scan that overlooked an entry computed before the scan began.
   */
  lemma SoundStepIff(cfg: Config, s: State, e: Event)
    requires IsDated(s) && AllSound(cfg, s)
    ensures AllSound(cfg, Next(cfg, s, e)) <==> !Spoils(cfg, s, e)
  {
    if key :| SpoilsKey(cfg, s, e, key) {
      SpoiledIsNotSound(cfg, s, e, key);
    } else {
      forall key | key in Next(cfg, s, e).store
        ensures IsSound(cfg, Next(cfg, s, e), key)
      {
        assert !SpoilsKey(cfg, s, e, key);
        if WritesTo(cfg, s, e, key) {
          WrittenIsSoundIff(cfg, s, e, key);
        } else {
          UntouchedIsSoundIff(cfg, s, e, key);
        }
      }
    }
  }

  ghost function Run(cfg: Config, s: State, events: seq<Event>): (last: State)
    requires s.past != []
    ensures last.past != []
    decreases |events|
  {
    if events == [] then s else Run(cfg, Next(cfg, s, events[0]), events[1..])
  }

  ghost predicate SpoilsNothing(cfg: Config, s: State, events: seq<Event>)
    requires IsDated(s)
    decreases |events|
  {
    events == [] || (!Spoils(cfg, s, events[0]) && (StaysDated(cfg, s, events[0]); SpoilsNothing(cfg, Next(cfg, s, events[0]), events[1..])))
  }

  ghost predicate SoundThroughout(cfg: Config, s: State, events: seq<Event>)
    requires s.past != []
    decreases |events|
  {
    AllSound(cfg, s) && (events == [] || SoundThroughout(cfg, Next(cfg, s, events[0]), events[1..]))
  }

  /** Over every run, all entries are sound at all times exactly when no step spoils one. */
  lemma {:induction false} SoundThroughoutIff(cfg: Config, s: State, events: seq<Event>)
    requires IsDated(s) && AllSound(cfg, s)
    ensures SoundThroughout(cfg, s, events) <==> SpoilsNothing(cfg, s, events)
    ensures SpoilsNothing(cfg, s, events) ==> AllSound(cfg, Run(cfg, s, events))
    decreases |events|
  {
    if events != [] {
      SoundStepIff(cfg, s, events[0]);
      StaysDated(cfg, s, events[0]);
      if !Spoils(cfg, s, events[0]) {
        SoundThroughoutIff(cfg, Next(cfg, s, events[0]), events[1..]);
      } else {
        assert !AllSound(cfg, Next(cfg, s, events[0]));
      }
    }
  }

  // ---------------------------------------------------------------------------------------
  // What a reader gets from an entry
  // ---------------------------------------------------------------------------------------

  /** The entry was computed less than ttl ago and no matching invalidation began since. */
  ghost predicate OriginIsFresh(cfg: Config, s: State, key: string)
    requires s.past != []
  {
    && key in s.origin && s.origin[key].seen < |s.past|
    && Current(s).time - s.past[s.origin[key].seen].time < cfg.ttl
    && IsUncleared(s, key, s.origin[key].seen)
  }

  /** The entry is there and not expired. */
  predicate IsLive(s: State, key: string)
    requires s.past != []
  {
    key in s.store && Current(s).time < s.store[key].expires
  }

  /** As long as it is served after `d` more seconds, the entry is fresh then. */
  ghost predicate ServesFresh(cfg: Config, s: State, key: string, d: nat)
    requires s.past != []
  {
    var t := Next(cfg, s, Advance(d));
    IsLive(t, key) ==> OriginIsFresh(cfg, t, key)
  }

  /** A live entry is sound exactly when every later reader it serves gets a fresh value. */
  lemma SoundIffServesFresh(cfg: Config, s: State, key: string)
    requires IsDated(s) && IsLive(s, key)
    ensures IsSound(cfg, s, key) <==> forall d: nat :: ServesFresh(cfg, s, key, d)
  {
    var i, entry, now := s.origin[key].seen, s.store[key], Current(s).time;
    forall d: nat
      ensures ServesFresh(cfg, s, key, d) <==> (now + d < entry.expires ==> now + d - s.past[i].time < cfg.ttl && IsUncleared(s, key, i))
    {
      assert Next(cfg, s, Advance(d)).past[i] == s.past[i];
    }
    if forall d: nat :: ServesFresh(cfg, s, key, d) {
      assert ServesFresh(cfg, s, key, 0);
      assert ServesFresh(cfg, s, key, entry.expires - 1 - now);
    }
  }

  /** A spoiled live entry does harm: some later reader, with nothing else happening, is served an outdated value. */
  lemma SpoiledIsServed(cfg: Config, s: State, e: Event, key: string) returns (d: nat)
    requires IsDated(s) && SpoilsKey(cfg, s, e, key)
    ensures IsDated(Next(cfg, s, e))
    ensures IsLive(Next(cfg, s, e), key) ==> !ServesFresh(cfg, Next(cfg, s, e), key, d)
    ensures WritesTo(cfg, s, e, key) && cfg.ttl > 0 ==> IsLive(Next(cfg, s, e), key)
  {
    StaysDated(cfg, s, e);
    SpoiledIsNotSound(cfg, s, e, key);
    d := 0;
    if IsLive(Next(cfg, s, e), key) {
      SoundIffServesFresh(cfg, Next(cfg, s, e), key);
      d :| !ServesFresh(cfg, Next(cfg, s, e), key, d);
    }
  }

  /** The event neither writes the key, nor completes a deletion that matches it, nor loses it. */
  predicate LeavesAlone(cfg: Config, s: State, e: Event, key: string) {
    && (e.Finish? && e.landed && e.id in s.pending ==> cfg.keyOf(s.pending[e.id].call) != key)
    && (e.EndScan? && e.id in s.scans ==> !(s.scans[e.id].prefix <= key))
    && (e.Lose? ==> key !in e.keys)
  }

  ghost predicate AllLeaveAlone(cfg: Config, s: State, events: seq<Event>, key: string)
    requires s.past != []
    decreases |events|
  {
    events == [] || (LeavesAlone(cfg, s, events[0], key) && AllLeaveAlone(cfg, Next(cfg, s, events[0]), events[1..], key))
  }

  /** Seconds that pass during a run. */
  function Elapsed(events: seq<Event>): nat {
    if events == [] then 0 else (if events[0].Advance? then events[0].seconds else 0) + Elapsed(events[1..])
  }

  lemma StepLeavesEntry(cfg: Config, s: State, e: Event, key: string)
    requires s.past != [] && key in s.store && LeavesAlone(cfg, s, e, key)
    ensures var t := Next(cfg, s, e);
            && key in t.store && t.store[key] == s.store[key]
            && Current(t).time == Current(s).time + if e.Advance? then e.seconds else 0
  {
  }

  lemma {:induction false} RunLeavesEntry(cfg: Config, s: State, events: seq<Event>, key: string)
    requires s.past != [] && key in s.store && AllLeaveAlone(cfg, s, events, key)
    ensures var t := Run(cfg, s, events);
            key in t.store && t.store[key] == s.store[key] && Current(t).time == Current(s).time + Elapsed(events)
    decreases |events|
  {
    if events != [] {
      StepLeavesEntry(cfg, s, events[0], key);
      RunLeavesEntry(cfg, Next(cfg, s, events[0]), events[1..], key);
    }
  }

  /**
   Caching works: a written result is served to every later call with the same key, by a successful
   read, exactly until ttl seconds have passed, as long as nobody writes, deletes or loses the key.
   */
  lemma StoredIsServedIff(cfg: Config, s: State, id: nat, events: seq<Event>, reader: nat, call: Call)
    requires s.past != [] && id in s.pending
    requires var p := s.pending[id];
             && cfg.json(p.value).Some? && cfg.json(p.value).value != Null && cfg.keyOf(call) == cfg.keyOf(p.call)
             && AllLeaveAlone(cfg, Next(cfg, s, Finish(id, true)), events, cfg.keyOf(p.call))
    ensures var last := Run(cfg, Next(cfg, s, Finish(id, true)), events);
            && Result(cfg, last, Begin(reader, call, false)) == None
            && Result(cfg, last, Begin(reader, call, true))
               == if Elapsed(events) < cfg.ttl then Some((call, cfg.json(s.pending[id].value).value)) else None
  {
    RunLeavesEntry(cfg, Next(cfg, s, Finish(id, true)), events, cfg.keyOf(call));
  }

  // ---------------------------------------------------------------------------------------
  // Freshness over runs
  // ---------------------------------------------------------------------------------------

  /** `v` is the serialised result of `source` at moment `i`, and no matching invalidation began since. */
  ghost predicate ComesFrom(cfg: Config, s: State, key: string, v: Value, source: Call, i: nat) {
    i < |s.past| && cfg.keyOf(source) == key && cfg.json(s.past[i].truth(source)) == Some(v) && IsUncleared(s, key, i)
  }

  /** `v` is the serialised result, less than ttl ago, of some call with the same key. */
  ghost predicate IsFreshForKey(cfg: Config, s: State, key: string, v: Value)
    requires s.past != []
  {
    exists source: Call, i: nat :: ComesFrom(cfg, s, key, v, source, i) && Current(s).time - s.past[i].time < cfg.ttl
  }

  /** `v` is what the function returned for `call` at moment `i`, and no matching invalidation began since. */
  ghost predicate IsGoodAt(cfg: Config, s: State, call: Call, v: Value, i: nat) {
    i < |s.past| && s.past[i].truth(call) == v && IsUncleared(s, cfg.keyOf(call), i)
  }

  /** The freshness promise for a value served from the cache. */
  ghost predicate IsFresh(cfg: Config, s: State, call: Call, v: Value)
    requires s.past != []
  {
    exists i: nat :: IsGoodAt(cfg, s, call, v, i) && Current(s).time - s.past[i].time < cfg.ttl
  }

  ghost predicate IsStable(cfg: Config) {
    forall v :: cfg.json(v) == Some(v)
  }

  ghost predicate HasDistinctKeys(cfg: Config) {
    forall c, d :: cfg.keyOf(c) == cfg.keyOf(d) ==> c == d
  }

  ghost predicate EntryIsTruthful(cfg: Config, s: State, key: string)
    requires IsDated(s) && key in s.store
  {
    var o := s.origin[key];
    cfg.keyOf(o.call) == key && cfg.json(s.past[o.seen].truth(o.call)) == Some(s.store[key].value)
  }

  /** Stored and pending values are what the function returned at the moments recorded for them. */
  ghost predicate IsTruthful(cfg: Config, s: State) {
    && IsDated(s)
    && (forall key :: key in s.store ==> EntryIsTruthful(cfg, s, key))
    && (forall id :: id in s.pending ==> s.past[s.pending[id].seen].truth(s.pending[id].call) == s.pending[id].value)
  }

  lemma EntryStaysTruthful(cfg: Config, s: State, e: Event, key: string)
    requires IsTruthful(cfg, s) && key in Next(cfg, s, e).store
    ensures IsDated(Next(cfg, s, e)) && EntryIsTruthful(cfg, Next(cfg, s, e), key)
  {
    StaysDated(cfg, s, e);
    if WritesTo(cfg, s, e, key) {
      assert Next(cfg, s, e).past[s.pending[e.id].seen] == s.past[s.pending[e.id].seen];
    } else {
      Untouched(cfg, s, e, key);
      assert EntryIsTruthful(cfg, s, key);
    }
  }

  /** A pending call was pending before or has just computed. */
  lemma PendingIsOldOrNew(cfg: Config, s: State, e: Event, id: nat)
    requires s.past != [] && id in Next(cfg, s, e).pending
    ensures var p := Next(cfg, s, e).pending[id];
            (id in s.pending && p == s.pending[id]) || p == Pending(p.call, Current(s).truth(p.call), |s.past| - 1)
  {
  }

  lemma PendingStaysTruthful(cfg: Config, s: State, e: Event, id: nat)
    requires IsTruthful(cfg, s) && id in Next(cfg, s, e).pending
    ensures IsDated(Next(cfg, s, e))
    ensures var t := Next(cfg, s, e); t.past[t.pending[id].seen].truth(t.pending[id].call) == t.pending[id].value
  {
    StaysDated(cfg, s, e);
    PendingIsOldOrNew(cfg, s, e, id);
    var t := Next(cfg, s, e);
    assert t.past[t.pending[id].seen] == s.past[t.pending[id].seen];
  }

  lemma StaysTruthful(cfg: Config, s: State, e: Event)
    requires IsTruthful(cfg, s)
    ensures IsTruthful(cfg, Next(cfg, s, e))
  {
    StaysDated(cfg, s, e);
    var t := Next(cfg, s, e);
    forall key | key in t.store
      ensures EntryIsTruthful(cfg, t, key)
    {
      EntryStaysTruthful(cfg, s, e, key);
    }
    forall id | id in t.pending
      ensures t.past[t.pending[id].seen].truth(t.pending[id].call) == t.pending[id].value
    {
      PendingStaysTruthful(cfg, s, e, id);
    }
  }

  lemma {:induction false} RunStaysTruthful(cfg: Config, s: State, events: seq<Event>)
    requires IsTruthful(cfg, s)
    ensures IsTruthful(cfg, Run(cfg, s, events))
    decreases |events|
  {
    if events != [] {
      StaysTruthful(cfg, s, events[0]);
      RunStaysTruthful(cfg, Next(cfg, s, events[0]), events[1..]);
    }
  }

  function Empty(time: int, truth: Call -> Value): State {
    State(map[], map[], map[], map[], [Moment(time, truth)], [])
  }

  /**
   The main theorem: after any run from an empty cache in which no step spoiled an entry, a caller
   served from the cache receives what some call with the same key returned, as serialised, less than
   ttl ago and not before the last completed matching invalidation began; a caller that missed
   receives what the function computed during the call.
   */
  lemma ServedValuesAreFresh(cfg: Config, time: int, truth: Call -> Value, events: seq<Event>, e: Event)
    requires SpoilsNothing(cfg, Empty(time, truth), events)
    ensures var s := Run(cfg, Empty(time, truth), events);
            && IsDated(s)
            && var r := Result(cfg, s, e);
               r.Some? ==>
                 if e.Begin? then IsFreshForKey(cfg, s, cfg.keyOf(r.value.0), r.value.1)
                 else e.Finish? && r.value.1 == s.past[s.pending[e.id].seen].truth(r.value.0)
  {
    var s0 := Empty(time, truth);
    RunStaysTruthful(cfg, s0, events);
    SoundThroughoutIff(cfg, s0, events);
    var s := Run(cfg, s0, events);
    if e.Begin? && Hit(cfg, s, e.call, e.readOk) != Null {
      var key := cfg.keyOf(e.call);
      assert IsSound(cfg, s, key) && EntryIsTruthful(cfg, s, key);
      assert ComesFrom(cfg, s, key, s.store[key].value, s.origin[key].call, s.origin[key].seen);
    }
  }

  /** With JSON-stable results and distinct keys, that is a value the function returned for this very call. */
  lemma CachedValuesAreFresh(cfg: Config, time: int, truth: Call -> Value, events: seq<Event>, e: Event)
    requires IsStable(cfg) && HasDistinctKeys(cfg) && SpoilsNothing(cfg, Empty(time, truth), events)
    ensures var s := Run(cfg, Empty(time, truth), events);
            && IsDated(s)
            && var r := Result(cfg, s, e);
               r.Some? ==>
                 if e.Begin? then IsFresh(cfg, s, r.value.0, r.value.1)
                 else e.Finish? && r.value.1 == s.past[s.pending[e.id].seen].truth(r.value.0)
  {
    ServedValuesAreFresh(cfg, time, truth, events, e);
    var s := Run(cfg, Empty(time, truth), events);
    if e.Begin? && Hit(cfg, s, e.call, e.readOk) != Null {
      var v := Hit(cfg, s, e.call, e.readOk);
      var source: Call, i: nat :| ComesFrom(cfg, s, cfg.keyOf(e.call), v, source, i) && Current(s).time - s.past[i].time < cfg.ttl;
      assert IsGoodAt(cfg, s, e.call, v, i);
    }
  }

  /**
   Overtaken: a call computes, the data change and the invalidation completes, and only then the call
   writes.  The next call is served the old value although nothing expired.
   */
  lemma OverlappedInvalidationServesStale(cfg: Config, before: Call -> Value, after: Call -> Value, call: Call)
    requires IsStable(cfg) && cfg.ttl > 0 && before(call) != after(call) && before(call) != Null
    ensures var key := cfg.keyOf(call);
            var events := [Begin(0, call, true), Change(after), BeginScan(0, key), EndScan(0, {}), Finish(0, true)];
            var s := Run(cfg, Empty(0, before), events);
            && Result(cfg, s, Begin(1, call, true)) == Some((call, before(call)))
            && !IsFresh(cfg, s, call, before(call))
  {
    var key := cfg.keyOf(call);
    var s0 := Empty(0, before);
    var s1 := Next(cfg, s0, Begin(0, call, true));
    var s2 := Next(cfg, s1, Change(after));
    var s3 := Next(cfg, s2, BeginScan(0, key));
    var s4 := Next(cfg, s3, EndScan(0, {}));
    var s5 := Next(cfg, s4, Finish(0, true));
    RunFive(cfg, s0, Begin(0, call, true), s1, Change(after), s2, BeginScan(0, key), s3, EndScan(0, {}), s4, Finish(0, true), s5);
    assert s2.past == [s0.past[0], s0.past[0], Moment(0, after)];
    assert s5.store[key] == Entry(before(call), cfg.ttl);
    ClearedIsStale(cfg, s5, before, after, call);
  }

  /** Overlooked: the call writes behind the running scan, which removes other entries and completes. */
  lemma WriteBehindScanServesStale(cfg: Config, before: Call -> Value, after: Call -> Value, call: Call)
    requires IsStable(cfg) && cfg.ttl > 0 && before(call) != after(call) && before(call) != Null
    ensures var key := cfg.keyOf(call);
            var events := [Begin(0, call, true), Change(after), BeginScan(0, key), Finish(0, true), EndScan(0, {key})];
            var s := Run(cfg, Empty(0, before), events);
            && Result(cfg, s, Begin(1, call, true)) == Some((call, before(call)))
            && !IsFresh(cfg, s, call, before(call))
  {
    var key := cfg.keyOf(call);
    var s0 := Empty(0, before);
    var s1 := Next(cfg, s0, Begin(0, call, true));
    var s2 := Next(cfg, s1, Change(after));
    var s3 := Next(cfg, s2, BeginScan(0, key));
    var s4 := Next(cfg, s3, Finish(0, true));
    var s5 := Next(cfg, s4, EndScan(0, {key}));
    RunFive(cfg, s0, Begin(0, call, true), s1, Change(after), s2, BeginScan(0, key), s3, Finish(0, true), s4, EndScan(0, {key}), s5);
    assert s2.past == [s0.past[0], s0.past[0], Moment(0, after)];
    assert s4.store[key] == Entry(before(call), cfg.ttl) && !Removes(s4, EndScan(0, {key}), key);
    ClearedIsStale(cfg, s5, before, after, call);
  }

  /** After a change and a completed deletion that began later, no value from before the change is fresh. */
  lemma ClearedIsStale(cfg: Config, s: State, before: Call -> Value, after: Call -> Value, call: Call)
    requires |s.past| == 6 && before(call) != after(call)
    requires forall i :: 2 <= i < 6 ==> s.past[i].truth == after
    requires s.cleared == [Invalidation(cfg.keyOf(call), 2)]
    ensures !IsFresh(cfg, s, call, before(call))
  {
    forall i: nat
      ensures !IsGoodAt(cfg, s, call, before(call), i)
    {
      assert s.cleared[0] in s.cleared;
    }
  }

  /**
   Late: the lifetime counts from the write.  However short the call took, a reader near the end of
   the lifetime is served a value older than ttl, with no invalidation involved.
   */
  lemma SlowCallServesOld(cfg: Config, before: Call -> Value, after: Call -> Value, call: Call, delay: nat)
    requires IsStable(cfg) && cfg.ttl > 0 && before(call) != after(call) && before(call) != Null && delay > 0
    ensures var events := [Begin(0, call, true), Change(after), Advance(delay), Finish(0, true)];
            var s := Next(cfg, Run(cfg, Empty(0, before), events), Advance(cfg.ttl - 1));
            && Result(cfg, s, Begin(1, call, true)) == Some((call, before(call)))
            && !IsFresh(cfg, s, call, before(call))
  {
    var key := cfg.keyOf(call);
    var s0 := Empty(0, before);
    var s1 := Next(cfg, s0, Begin(0, call, true));
    var s2 := Next(cfg, s1, Change(after));
    var s3 := Next(cfg, s2, Advance(delay));
    var s4 := Next(cfg, s3, Finish(0, true));
    var s5 := Next(cfg, s4, Advance(cfg.ttl - 1));
    RunFour(cfg, s0, Begin(0, call, true), s1, Change(after), s2, Advance(delay), s3, Finish(0, true), s4);
    assert s4.store[key] == Entry(before(call), delay + cfg.ttl);
    assert s5.past == [s0.past[0], s0.past[0], Moment(0, after), Moment(delay, after), Moment(delay, after),
                       Moment(delay + cfg.ttl - 1, after)];
  }

  ghost predicate IsStep(cfg: Config, s: State, e: Event, t: State) {
    s.past != [] && t == Next(cfg, s, e)
  }

  lemma RunFirst(cfg: Config, s: State, e: Event, rest: seq<Event>, t: State)
    requires IsStep(cfg, s, e, t)
    ensures t.past != [] && Run(cfg, s, [e] + rest) == Run(cfg, t, rest)
  {
    assert ([e] + rest)[1..] == rest;
  }

  lemma RunFour(cfg: Config, s0: State, a: Event, s1: State, b: Event, s2: State, c: Event, s3: State, d: Event, s4: State)
    requires IsStep(cfg, s0, a, s1) && IsStep(cfg, s1, b, s2) && IsStep(cfg, s2, c, s3) && IsStep(cfg, s3, d, s4)
    ensures s0.past != [] && Run(cfg, s0, [a, b, c, d]) == s4
  {
    RunFirst(cfg, s0, a, [b, c, d], s1);
    RunFirst(cfg, s1, b, [c, d], s2);
    RunFirst(cfg, s2, c, [d], s3);
    RunFirst(cfg, s3, d, [], s4);
    assert [a] + [b, c, d] == [a, b, c, d] && [b] + [c, d] == [b, c, d] && [c] + [d] == [c, d] && [d] + [] == [d];
  }

  lemma RunFive(cfg: Config, s0: State, a: Event, s1: State, b: Event, s2: State, c: Event, s3: State, d: Event, s4: State, e: Event, s5: State)
    requires IsStep(cfg, s0, a, s1) && IsStep(cfg, s1, b, s2) && IsStep(cfg, s2, c, s3) && IsStep(cfg, s3, d, s4) && IsStep(cfg, s4, e, s5)
    ensures s0.past != [] && Run(cfg, s0, [a, b, c, d, e]) == s5
  {
    RunFirst(cfg, s0, a, [b, c, d, e], s1);
    RunFour(cfg, s1, b, s2, c, s3, d, s4, e, s5);
    assert [a] + [b, c, d, e] == [a, b, c, d, e];
  }
}
