/** The process-wide registry of open connections that guards recovery. */
module Registry {
  import opened Wrappers
  import opened Paths

  /** A canonical path, or none for a database in memory. */
  type Key = Option<Path>

  type Counts = map<Path, nat>

  /** An adapter. No two that are alive at once are the same. */
  type Adapter = nat

  /** What adapters do: open, fail to open, and drop. The key is the one the
      adapter's path resolves to at that time. */
  datatype Event = Opened(who: Adapter, key: Key) | Refused(key: Key) | Dropped(who: Adapter, key: Key)

  function CountOf(counts: Counts, path: Path): nat {
    if path in counts then counts[path] else 0
  }

  /** Subtraction that stops at zero. */
  function Less(n: nat): nat {
    if n > 0 then n - 1 else 0
  }

  /** `register_connection` and `unregister_connection` on the shared map, which
      knows keys only. */
  function Step(counts: Counts, e: Event): Counts {
    match e
    case Opened(_, Some(path)) => counts[path := CountOf(counts, path) + 1]
    case Dropped(_, Some(path)) =>
      if path !in counts then counts
      else if Less(counts[path]) == 0 then counts - {path}
      else counts[path := Less(counts[path])]
    case _ => counts
  }

  function After(events: seq<Event>): Counts {
    if events == [] then map[] else Step(After(events[..|events| - 1]), events[|events| - 1])
  }

  // The adapters alive

  type Live = map<Adapter, Key>

  /** The adapters alive, each with the key it opened under. */
  ghost function Next(live: Live, e: Event): Live {
    match e
    case Opened(who, key) => live[who := key]
    case Dropped(who, _) => live - {who}
    case Refused(_) => live
  }

  ghost function Alive(events: seq<Event>): Live {
    if events == [] then map[] else Next(Alive(events[..|events| - 1]), events[|events| - 1])
  }

  /** Only what is not alive opens, only what is alive is dropped, and a database in
      memory stays one. */
  ghost predicate Possible(live: Live, e: Event) {
    match e
    case Opened(who, _) => who !in live
    case Dropped(who, key) => who in live && (key == None <==> live[who] == None)
    case Refused(_) => true
  }

  /** The path resolves to the key it resolved to when the adapter opened. */
  ghost predicate KeepsKey(live: Live, e: Event) {
    e.Dropped? && e.who in live ==> e.key == live[e.who]
  }

  ghost predicate Orderly(events: seq<Event>) {
    forall n | 0 <= n < |events| :: Possible(Alive(events[..n]), events[n])
  }

  ghost predicate Stable(events: seq<Event>) {
    forall n | 0 <= n < |events| :: KeepsKey(Alive(events[..n]), events[n])
  }

  /** The live adapters that opened under a path. */
  ghost function Holders(live: Live, path: Path): set<Adapter> {
    set who | who in live && live[who] == Some(path)
  }

  /** The registry counts exactly the live adapters, with no entry at zero. */
  ghost predicate Exact(counts: Counts, live: Live) {
    forall path :: CountOf(counts, path) == |Holders(live, path)| && (path in counts <==> Holders(live, path) != {})
  }

  // One event

  lemma HoldersAfterOpen(live: Live, who: Adapter, key: Key, path: Path)
    requires who !in live
    ensures Holders(live[who := key], path) == Holders(live, path) + if key == Some(path) then {who} else {}
    ensures |Holders(live[who := key], path)| == |Holders(live, path)| + if key == Some(path) then 1 else 0
  {
    assert who !in Holders(live, path);
    assert Holders(live[who := key], path) == Holders(live, path) + if key == Some(path) then {who} else {};
  }

  lemma HoldersAfterDrop(live: Live, who: Adapter, path: Path)
    requires who in live
    ensures Holders(live - {who}, path) == Holders(live, path) - {who}
    ensures |Holders(live - {who}, path)| == |Holders(live, path)| - if live[who] == Some(path) then 1 else 0
  {
    assert Holders(live - {who}, path) == Holders(live, path) - {who};
    assert live[who] == Some(path) ==> who in Holders(live, path);
    assert live[who] != Some(path) ==> Holders(live, path) - {who} == Holders(live, path);
  }

  lemma OpenKeepsExact(counts: Counts, live: Live, e: Event)
    requires Exact(counts, live) && Possible(live, e) && !e.Dropped?
    ensures Exact(Step(counts, e), Next(live, e))
  {
    if e.Opened? {
      forall path
        ensures CountOf(Step(counts, e), path) == |Holders(Next(live, e), path)|
        ensures path in Step(counts, e) <==> Holders(Next(live, e), path) != {}
      {
        HoldersAfterOpen(live, e.who, e.key, path);
      }
    }
  }

  /** What a drop does at each path, wherever the count was exact before: under the
      key it opened with, one less; under another, the adapter stays counted where
      it opened, and one that is still alive under the other key, if any, is not. */
  lemma DropEffect(counts: Counts, live: Live, e: Event, path: Path)
    requires Exact(counts, live) && e.Dropped? && Possible(live, e)
    ensures var under := live[e.who];
      CountOf(Step(counts, e), path)
      == if under == e.key then |Holders(Next(live, e), path)|
         else if under == Some(path) then |Holders(Next(live, e), path)| + 1
         else if e.key == Some(path) then Less(|Holders(Next(live, e), path)|)
         else |Holders(Next(live, e), path)|
    ensures path in Step(counts, e) <==> CountOf(Step(counts, e), path) > 0
  {
    HoldersAfterDrop(live, e.who, path);
    assert path in counts <==> Holders(live, path) != {};
    assert live[e.who] == Some(path) ==> e.who in Holders(live, path);
  }

  /** A drop keeps the count exact exactly when the key is the one it opened with. */
  lemma DropKeepsExactIff(counts: Counts, live: Live, e: Event)
    requires Exact(counts, live) && e.Dropped? && Possible(live, e)
    ensures Exact(Step(counts, e), Next(live, e)) <==> KeepsKey(live, e)
  {
    if KeepsKey(live, e) {
      forall path
        ensures CountOf(Step(counts, e), path) == |Holders(Next(live, e), path)|
        ensures path in Step(counts, e) <==> Holders(Next(live, e), path) != {}
      {
        DropEffect(counts, live, e, path);
      }
    } else {
      DropEffect(counts, live, e, live[e.who].value);
    }
  }

  // Every history

  /** Over every history of opens, failed opens and drops, the registry is exact
      throughout exactly when every adapter is dropped under the key it opened with. */
  lemma {:induction false} ExactIffStable(events: seq<Event>)
    requires Orderly(events)
    ensures (forall n | 0 <= n <= |events| :: Exact(After(events[..n]), Alive(events[..n]))) <==> Stable(events)
  {
    if Stable(events) {
      forall n | 0 <= n <= |events| ensures Exact(After(events[..n]), Alive(events[..n])) {
        StableIsExact(events, n);
      }
    }
    if forall n | 0 <= n <= |events| :: Exact(After(events[..n]), Alive(events[..n])) {
      forall n | 0 <= n < |events| ensures KeepsKey(Alive(events[..n]), events[n]) {
        assert Possible(Alive(events[..n]), events[n]);
        assert events[..n + 1][..n] == events[..n] && events[..n + 1][n] == events[n];
        if events[n].Dropped? { DropKeepsExactIff(After(events[..n]), Alive(events[..n]), events[n]); }
      }
    }
  }

  lemma {:induction false} StableIsExact(events: seq<Event>, n: nat)
    requires Orderly(events) && Stable(events) && n <= |events|
    ensures Exact(After(events[..n]), Alive(events[..n]))
  {
    if n == 0 {
      forall path ensures Holders(map[], path) == {} {}
    } else {
      StableIsExact(events, n - 1);
      assert events[..n][..n - 1] == events[..n - 1] && events[..n][n - 1] == events[n - 1];
      assert Possible(Alive(events[..n - 1]), events[n - 1]) && KeepsKey(Alive(events[..n - 1]), events[n - 1]);
      if events[n - 1].Dropped? {
        DropKeepsExactIff(After(events[..n - 1]), Alive(events[..n - 1]), events[n - 1]);
      } else {
        OpenKeepsExact(After(events[..n - 1]), Alive(events[..n - 1]), events[n - 1]);
      }
    }
  }

  /** No drop of a live adapter meets a count of zero. */
  lemma NeverSaturates(events: seq<Event>, n: nat, path: Path)
    requires Orderly(events) && Stable(events) && n < |events| && events[n].Dropped? && events[n].key == Some(path)
    ensures CountOf(After(events[..n]), path) > 0
  {
    StableIsExact(events, n);
    assert Possible(Alive(events[..n]), events[n]) && KeepsKey(Alive(events[..n]), events[n]);
    assert events[n].who in Holders(Alive(events[..n]), path);
  }

  /** `has_other_connection`, from inside one of the connections. */
  predicate HasOther(counts: Counts, key: Key) {
    key.Some? && CountOf(counts, key.value) > 1
  }

  /** The guard trips exactly when another adapter that opened under the path is alive. */
  lemma GuardIsExact(events: seq<Event>, path: Path, me: Adapter)
    requires Orderly(events) && Stable(events) && me in Holders(Alive(events), path)
    ensures HasOther(After(events), Some(path)) <==> exists who :: who != me && who in Holders(Alive(events), path)
  {
    assert events[..|events|] == events;
    StableIsExact(events, |events|);
    var holders := Holders(Alive(events), path);
    assert CountOf(After(events), path) == |holders|;
    assert |holders - {me}| == |holders| - 1;
    if |holders| > 1 {
      assert |holders - {me}| > 0;
      var other :| other in holders - {me};
    }
    if who :| who != me && who in holders {
      assert who in holders - {me};
      assert |holders - {me}| > 0;
    }
  }

  /** Two adapters that swap keys at their drops are both counted wrongly on the
      way, and leave the registry empty. */
  lemma SwappedKeys(a: Path, b: Path)
    requires a != b
    ensures var events := [Opened(0, Some(a)), Opened(1, Some(b)), Dropped(0, Some(b)), Dropped(1, Some(a))];
      Orderly(events) && !Stable(events) && After(events) == map[] && !Exact(After(events[..3]), Alive(events[..3]))
  {
    var events := [Opened(0, Some(a)), Opened(1, Some(b)), Dropped(0, Some(b)), Dropped(1, Some(a))];
    assert events[..0] == [];
    assert events[..1] == [events[0]] && events[..1][..0] == [];
    assert events[..2] == [events[0], events[1]] && events[..2][..1] == events[..1];
    assert events[..3] == [events[0], events[1], events[2]] && events[..3][..2] == events[..2];
    assert Alive(events[..1]) == map[0 := Some(a)];
    assert After(events[..1]) == Step(map[], events[0]) == map[a := 1];
    assert Alive(events[..2]) == map[0 := Some(a), 1 := Some(b)];
    assert Alive(events[..3]) == map[1 := Some(b)];
    assert After(events[..2]) == map[a := 1, b := 1];
    assert After(events[..3]) == map[a := 1];
    assert Holders(Alive(events[..3]), a) == {};
    assert !KeepsKey(Alive(events[..2]), events[2]);
  }

  class ConnectionRegistry {
    var counts: Counts
    /** What has happened to it. */
    ghost var events: seq<Event>

    ghost predicate Valid()
      reads this
    {
      counts == After(events)
    }

    constructor ()
      ensures Valid() && events == []
    {
      counts, events := map[], [];
    }

    method Register(ghost who: Adapter, key: Key)
      requires Valid()
      modifies this
      ensures Valid() && events == old(events) + [Opened(who, key)]
    {
      if key.Some? {
        counts := counts[key.value := CountOf(counts, key.value) + 1];
      }
      events := events + [Opened(who, key)];
      assert events[..|events| - 1] == old(events);
    }

    method Unregister(ghost who: Adapter, key: Key)
      requires Valid()
      modifies this
      ensures Valid() && events == old(events) + [Dropped(who, key)]
    {
      if key.Some? && key.value in counts {
        counts := counts[key.value := Less(counts[key.value])];
        if counts[key.value] == 0 {
          counts := counts - {key.value};
        }
      }
      events := events + [Dropped(who, key)];
      assert events[..|events| - 1] == old(events);
      assert key.Some? && key.value in old(counts) ==>
          old(counts)[key.value := 0] - {key.value} == old(counts) - {key.value};
    }

    /** The guard of recovery: some adapter other than the caller's is open. */
    method GuardFires(path: Path, ghost me: Adapter) returns (fires: bool)
      requires Valid() && Orderly(events) && Stable(events) && me in Holders(Alive(events), path)
      ensures fires <==> exists who :: who != me && who in Holders(Alive(events), path)
    {
      GuardIsExact(events, path, me);
      fires := HasOther(counts, Some(path));
    }
  }
}
