/**
 The bounded session registry of mcp-dashboard/src/sessions.ts.

 The clock is read afresh at every test of an entry; an operation carries its
 readings: one per entry for a sweep, given as a function of the id.
 */
module Sessions {
  import opened Prelude

  /** A session id; only equality of ids matters. */
  datatype Id = Id(text: string)

  type Time = int
  type Readings = Id -> Time

  datatype Config = Config(max: nat, ttl: Time)

  datatype Entry<+T> = Entry(value: T, lastSeen: Time)

  /**
   The map with its insertion order, and the log of ids whose session was
   opened and of those whose session's `close` was called.
   */
  datatype Registry<!T> = Registry(order: seq<Id>, entries: map<Id, Entry<T>>, openings: seq<Id>, closings: seq<Id>)

  predicate Expired(lastSeen: Time, now: Time, ttl: Time) {
    now - lastSeen > ttl
  }

  predicate Valid<T>(reg: Registry<T>) {
    && (forall i :: 0 <= i < |reg.order| ==> reg.order[i] in reg.entries)
    && (forall id :: id in reg.entries ==> id in reg.order)
    && Distinct(reg.order)
  }

  predicate Distinct<K(==)>(s: seq<K>) {
    forall i, j :: 0 <= i < j < |s| ==> s[i] != s[j]
  }

  predicate Stale<T>(entries: map<Id, Entry<T>>, id: Id, ttl: Time, at: Readings) {
    id in entries && Expired(entries[id].lastSeen, at(id), ttl)
  }

  /** The ids of a snapshot that a sweep closes, in order. */
  function Reaped<T>(ids: seq<Id>, entries: map<Id, Entry<T>>, ttl: Time, at: Readings): seq<Id> {
    if |ids| == 0 then []
    else Reaped(ids[..|ids| - 1], entries, ttl, at) +
         if Stale(entries, ids[|ids| - 1], ttl, at) then [ids[|ids| - 1]] else []
  }

  function Spared<T>(ids: seq<Id>, entries: map<Id, Entry<T>>, ttl: Time, at: Readings): seq<Id> {
    if |ids| == 0 then []
    else Spared(ids[..|ids| - 1], entries, ttl, at) +
         if Stale(entries, ids[|ids| - 1], ttl, at) then [] else [ids[|ids| - 1]]
  }

  function Reap<T>(reg: Registry<T>, ttl: Time, at: Readings): Registry<T> {
    Registry(Spared(reg.order, reg.entries, ttl, at),
             map id | id in reg.entries && !Stale(reg.entries, id, ttl, at) :: reg.entries[id],
             reg.openings,
             reg.closings + Reaped(reg.order, reg.entries, ttl, at))
  }

  function Without<K(==)>(order: seq<K>, id: K): seq<K> {
    if |order| == 0 then []
    else if order[0] == id then order[1..]
    else [order[0]] + Without(order[1..], id)
  }

  function Close<T>(reg: Registry<T>, id: Id): Registry<T> {
    if id !in reg.entries then reg
    else Registry(Without(reg.order, id), reg.entries - {id}, reg.openings, reg.closings + [id])
  }

  function Open<T>(reg: Registry<T>, config: Config, id: Id, value: T, at: Readings, now: Time): (Registry<T>, bool) {
    var reaped := Reap(reg, config.ttl, at);
    if |reaped.entries| < config.max then
      (Registry(if id in reaped.entries then reaped.order else reaped.order + [id],
                reaped.entries[id := Entry(value, now)], reaped.openings + [id], reaped.closings), true)
    else (reaped, false)
  }

  function Refreshed<T>(reg: Registry<T>, id: Id, now: Time): Registry<T>
    requires id in reg.entries
  {
    reg.(entries := reg.entries[id := reg.entries[id].(lastSeen := now)])
  }

  function Get<T>(reg: Registry<T>, config: Config, id: Id, tested: Time, seen: Time): (Registry<T>, Option<T>) {
    if id !in reg.entries then (reg, None)
    else if Expired(reg.entries[id].lastSeen, tested, config.ttl) then (Close(reg, id), None)
    else (Refreshed(reg, id, seen), Some(reg.entries[id].value))
  }

  function Touch<T>(reg: Registry<T>, config: Config, id: Id, tested: Time, seen: Time): Registry<T> {
    if id in reg.entries && !Expired(reg.entries[id].lastSeen, tested, config.ttl)
    then Refreshed(reg, id, seen) else reg
  }

  /** The registry object: `close` callbacks re-enter `close` with their own id. */
  class SessionRegistry<T> {
    const config: Config
    var order: seq<Id>
    var entries: map<Id, Entry<T>>
    ghost var openings: seq<Id>
    ghost var closings: seq<Id>

    ghost function State(): Registry<T>
      reads this
    {
      Registry(order, entries, openings, closings)
    }

    constructor (config: Config)
      ensures this.config == config && State() == Registry([], map[], [], [])
    {
      this.config := config;
      order, entries, openings, closings := [], map[], [], [];
    }

    /**
     `entry.value.close()` on an entry already removed: the transport's
     `onclose` calls back into the registry with the session's own id.
     */
    method CloseValue(id: Id)
      requires id !in entries
      modifies this
      ensures State() == old(State()).(closings := old(closings) + [id])
      decreases |entries|, 1
    {
      closings := closings + [id];
      CloseSession(id);
    }

    method CloseSession(id: Id)
      modifies this
      ensures State() == Close(old(State()), id)
      decreases |entries|, 0
    {
      if id !in entries {
        return;
      }
      order := Without(order, id);
      entries := entries - {id};
      assert |entries| == |old(entries)| - 1;
      CloseValue(id);
    }

    method ReapExpired(at: Readings) returns (ids: seq<Id>)
      requires Valid(State())
      modifies this
      ensures State() == Reap(old(State()), config.ttl, at)
      ensures ids == Reaped(old(order), old(entries), config.ttl, at)
    {
      hide Reaped, Spared, Valid, Without, AsSet;
      var snapshot, values := order, entries;
      SweepStart(snapshot, values, config.ttl, at);
      ids := [];
      for i := 0 to |snapshot|
        invariant ids == Reaped(snapshot[..i], values, config.ttl, at)
        invariant order == Spared(snapshot[..i], values, config.ttl, at) + snapshot[i..]
        invariant entries == values - AsSet(ids)
        invariant closings == old(closings) + ids && openings == old(openings)
      {
        var id := snapshot[i];
        SweepStep(old(State()), i, config.ttl, at);
        if Expired(values[id].lastSeen, at(id), config.ttl) {
          order := Without(order, id);
          entries := entries - {id};
          CloseValue(id);
          ids := ids + [id];
          assert values - AsSet(ids[..|ids| - 1]) - {id} == values - AsSet(ids) by {
            AsSetAppend(ids[..|ids| - 1], id);
          }
        }
      }
      SweepEnd(old(State()), config.ttl, at);
    }

    method CanOpen(at: Readings) returns (free: bool)
      requires Valid(State())
      modifies this
      ensures State() == Reap(old(State()), config.ttl, at)
      ensures free == (|entries| < config.max)
    {
      var _ := ReapExpired(at);
      free := |entries| < config.max;
    }

    method OpenSession(id: Id, value: T, at: Readings, now: Time) returns (ok: bool)
      requires Valid(State())
      modifies this
      ensures (State(), ok) == Open(old(State()), config, id, value, at, now)
    {
      ok := CanOpen(at);
      if ok {
        if id !in entries {
          order := order + [id];
        }
        entries := entries[id := Entry(value, now)];
        openings := openings + [id];
      }
    }

    method GetSession(id: Id, tested: Time, seen: Time) returns (value: Option<T>)
      modifies this
      ensures (State(), value) == Get(old(State()), config, id, tested, seen)
    {
      if id !in entries {
        return None;
      }
      var entry := entries[id];
      if Expired(entry.lastSeen, tested, config.ttl) {
        CloseSession(id);
        return None;
      }
      entries := entries[id := entry.(lastSeen := seen)];
      value := Some(entry.value);
    }

    method TouchSession(id: Id, tested: Time, seen: Time)
      modifies this
      ensures State() == Touch(old(State()), config, id, tested, seen)
    {
      if id in entries && !Expired(entries[id].lastSeen, tested, config.ttl) {
        entries := entries[id := entries[id].(lastSeen := seen)];
      }
    }
  }

  // ----- lemmas on snapshots -----

  lemma {:induction false} ReapedFrom<T>(ids: seq<Id>, entries: map<Id, Entry<T>>, ttl: Time, at: Readings)
    ensures forall id :: id in Reaped(ids, entries, ttl, at) <==> id in ids && Stale(entries, id, ttl, at)
  {
    if |ids| > 0 {
      ReapedFrom(ids[..|ids| - 1], entries, ttl, at);
      assert ids == ids[..|ids| - 1] + [ids[|ids| - 1]];
    }
  }

  lemma {:induction false} SparedFrom<T>(ids: seq<Id>, entries: map<Id, Entry<T>>, ttl: Time, at: Readings)
    ensures forall id :: id in Spared(ids, entries, ttl, at) <==> id in ids && !Stale(entries, id, ttl, at)
  {
    if |ids| > 0 {
      SparedFrom(ids[..|ids| - 1], entries, ttl, at);
      assert ids == ids[..|ids| - 1] + [ids[|ids| - 1]];
    }
  }

  function AsSet(ids: seq<Id>): set<Id> {
    set id | id in ids
  }

  lemma AsSetAppend(ids: seq<Id>, id: Id)
    ensures AsSet(ids + [id]) == AsSet(ids) + {id}
    ensures (ids + [id])[..|ids|] == ids
  {
  }

  lemma SweepStart<T>(snapshot: seq<Id>, entries: map<Id, Entry<T>>, ttl: Time, at: Readings)
    ensures Reaped(snapshot[..0], entries, ttl, at) == [] == Spared(snapshot[..0], entries, ttl, at)
    ensures snapshot[0..] == snapshot && entries - AsSet([]) == entries
  {
  }

  /** One turn of the sweep's loop, on the order and on the closed ids. */
  lemma SweepStep<T>(reg: Registry<T>, i: nat, ttl: Time, at: Readings)
    requires Valid(reg) && i < |reg.order|
    ensures var (ids, id) := (reg.order, reg.order[i]);
            var order := Spared(ids[..i], reg.entries, ttl, at) + ids[i..];
            && id in reg.entries
            && Reaped(ids[..i + 1], reg.entries, ttl, at) ==
               Reaped(ids[..i], reg.entries, ttl, at) + (if Stale(reg.entries, id, ttl, at) then [id] else [])
            && Spared(ids[..i + 1], reg.entries, ttl, at) + ids[i + 1..] ==
               (if Stale(reg.entries, id, ttl, at) then Without(order, id) else order)
  {
    hide Spared, Reaped, Without, Stale;
    var ids, id := reg.order, reg.order[i];
    assert ids[..i + 1][..i] == ids[..i];
    SparedFrom(ids[..i], reg.entries, ttl, at);
    SweepSnoc(ids[..i + 1], reg.entries, ttl, at);
    var spared := Spared(ids[..i], reg.entries, ttl, at);
    assert spared + ids[i..] == spared + [id] + ids[i + 1..];
    WithoutMiddle(spared, id, ids[i + 1..]);
    assert id !in ids[..i];
  }

  lemma SweepSnoc<T>(ids: seq<Id>, entries: map<Id, Entry<T>>, ttl: Time, at: Readings)
    requires |ids| > 0
    ensures var (init, id) := (ids[..|ids| - 1], ids[|ids| - 1]);
            var stale := Stale(entries, id, ttl, at);
            && Reaped(ids, entries, ttl, at) == Reaped(init, entries, ttl, at) + (if stale then [id] else [])
            && Spared(ids, entries, ttl, at) == Spared(init, entries, ttl, at) + (if stale then [] else [id])
  {
  }

  lemma SweepEnd<T>(reg: Registry<T>, ttl: Time, at: Readings)
    requires Valid(reg)
    ensures var n := |reg.order|;
            && reg.order[..n] == reg.order && reg.order[n..] == []
            && reg.entries - AsSet(Reaped(reg.order, reg.entries, ttl, at)) == Reap(reg, ttl, at).entries
  {
    ReapedFrom(reg.order, reg.entries, ttl, at);
  }

  lemma {:induction false} WithoutMiddle<K>(left: seq<K>, id: K, right: seq<K>)
    ensures id !in left ==> Without(left + [id] + right, id) == left + right
  {
    var all := left + [id] + right;
    if |left| == 0 {
      assert all == [id] + right;
    } else {
      WithoutMiddle(left[1..], id, right);
      assert all[1..] == left[1..] + [id] + right;
      assert all[0] == left[0];
    }
  }
}
