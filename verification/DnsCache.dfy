/** The bounded positive/negative cache of `Resolver` (`src/dns.rs`), refined against the log of
    everything that was ever stored. Time is a monotone integer. */
module DnsCache {
  import opened Common

  /** `None` is a negative entry. */
  type Records = Option<seq<IpAddr>>

  datatype Entry = Entry(records: Records, expires: nat)

  datatype Stored = Stored(key: Key, records: Records, at: nat)

  datatype Policy = Policy(cacheTtl: nat, negativeTtl: nat, maxEntries: nat) {
    function Ttl(records: Records): nat { if records.Some? then cacheTtl else negativeTtl }
  }

  /** `log` and `evicted` are the history the cache is judged against. */
  datatype View = View(entries: map<Key, Entry>, log: seq<Stored>, evicted: bool, clock: nat)

  datatype Op = Lookup(key: Key, now: nat) | Store(key: Key, records: Records, now: nat, victim: Key)

  function Empty(): View { View(map[], [], false, 0) }

  // ----- One operation

  function Hit(v: View, k: Key, now: nat): Option<Records> {
    if k in v.entries && v.entries[k].expires > now then Some(v.entries[k].records) else None
  }

  predicate MustEvict(p: Policy, v: View, k: Key) {
    |v.entries| >= p.maxEntries && k !in v.entries && v.entries != map[]
  }

  function AfterLookup(v: View, k: Key, now: nat): View {
    v.(entries := if Hit(v, k, now).Some? then v.entries else v.entries - {k}, clock := now)
  }

  function AfterStore(p: Policy, v: View, k: Key, records: Records, now: nat, victim: Key): View {
    var kept := if MustEvict(p, v, k) then v.entries - {victim} else v.entries;
    View(kept[k := Entry(records, now + p.Ttl(records))], v.log + [Stored(k, records, now)],
         v.evicted || MustEvict(p, v, k), now)
  }

  predicate Enabled(p: Policy, v: View, op: Op) {
    op.now >= v.clock && (op.Store? && MustEvict(p, v, op.key) ==> op.victim in v.entries)
  }

  function Apply(p: Policy, v: View, op: Op): View {
    match op
    case Lookup(k, now) => AfterLookup(v, k, now)
    case Store(k, records, now, victim) => AfterStore(p, v, k, records, now, victim)
  }

  // ----- The store log

  function LastStore(log: seq<Stored>, k: Key): Option<Stored> {
    if log == [] then None
    else if log[|log| - 1].key == k then Some(log[|log| - 1])
    else LastStore(log[..|log| - 1], k)
  }

  predicate FreshAt(p: Policy, s: Option<Stored>, now: nat) {
    s.Some? && now < s.value.at + p.Ttl(s.value.records)
  }

  ghost predicate EntryOk(p: Policy, v: View, k: Key)
    requires k in v.entries
  {
    var last := LastStore(v.log, k);
    && last.Some? && v.entries[k].records == last.value.records
    && v.entries[k].expires == last.value.at + p.Ttl(last.value.records)
  }

  ghost predicate Inv(p: Policy, v: View) {
    && (forall k :: k in v.entries ==> EntryOk(p, v, k))
    && |v.entries| <= Max(1, p.maxEntries)
    && (!v.evicted ==> forall k :: FreshAt(p, LastStore(v.log, k), v.clock) ==> k in v.entries)
  }

  lemma OpKeepsInv(p: Policy, v: View, op: Op)
    requires Inv(p, v) && Enabled(p, v, op)
    ensures Inv(p, Apply(p, v, op))
  {
    match op
    case Lookup(k, now) => LookupKeepsInv(p, v, k, now);
    case Store(k, records, now, victim) =>
      StoreKeepsEntries(p, v, k, records, now, victim);
      StoreKeepsSize(p, v, k, records, now, victim);
  }

  lemma LookupKeepsInv(p: Policy, v: View, k: Key, now: nat)
    requires Inv(p, v) && now >= v.clock
    ensures Inv(p, AfterLookup(v, k, now))
  {
    var v' := AfterLookup(v, k, now);
    CardinalityMonotone(v'.entries, v.entries);
    forall j | j in v'.entries ensures EntryOk(p, v', j) {
      assert EntryOk(p, v, j);
    }
    forall j | !v.evicted && FreshAt(p, LastStore(v.log, j), now) ensures j in v'.entries {
      assert FreshAt(p, LastStore(v.log, j), v.clock);
      assert EntryOk(p, v, j);
    }
  }

  lemma StoreKeepsEntries(p: Policy, v: View, k: Key, records: Records, now: nat, victim: Key)
    requires Inv(p, v) && now >= v.clock
    ensures var v' := AfterStore(p, v, k, records, now, victim);
            && (forall j :: j in v'.entries ==> EntryOk(p, v', j))
            && (!v'.evicted ==> forall j :: FreshAt(p, LastStore(v'.log, j), now) ==> j in v'.entries)
  {
    var v' := AfterStore(p, v, k, records, now, victim);
    assert v'.log[..|v.log|] == v.log;
    forall j | j in v'.entries ensures EntryOk(p, v', j) {
      if j != k {
        assert EntryOk(p, v, j);
      }
    }
    forall j | !v'.evicted && FreshAt(p, LastStore(v'.log, j), now) ensures j in v'.entries {
      if j != k {
        assert FreshAt(p, LastStore(v.log, j), v.clock);
      }
    }
  }

  lemma StoreKeepsSize(p: Policy, v: View, k: Key, records: Records, now: nat, victim: Key)
    requires |v.entries| <= Max(1, p.maxEntries)
    requires MustEvict(p, v, k) ==> victim in v.entries
    ensures |AfterStore(p, v, k, records, now, victim).entries| <= Max(1, p.maxEntries)
  {
    var after := AfterStore(p, v, k, records, now, victim).entries;
    assert |after| == |after.Keys| && |v.entries| == |v.entries.Keys|;
    if MustEvict(p, v, k) {
      assert after.Keys == v.entries.Keys - {victim} + {k};
    } else {
      assert after.Keys == v.entries.Keys + {k};
      if v.entries == map[] {
        assert after.Keys == {k};
      }
    }
  }

  lemma CardinalityMonotone(a: map<Key, Entry>, b: map<Key, Entry>)
    requires a.Keys <= b.Keys
    ensures |a| <= |b|
  {
    assert b.Keys == a.Keys + (b.Keys - a.Keys);
    assert |a| == |a.Keys| && |b| == |b.Keys|;
  }

  // ----- Runs

  predicate ValidRun(p: Policy, v: View, run: seq<Op>)
    decreases |run|
  {
    run == [] || (Enabled(p, v, run[0]) && ValidRun(p, Apply(p, v, run[0]), run[1..]))
  }

  function Final(p: Policy, v: View, run: seq<Op>): View
    decreases |run|
  {
    if run == [] then v else Final(p, Apply(p, v, run[0]), run[1..])
  }

  lemma {:induction false} RunKeepsInv(p: Policy, v: View, run: seq<Op>)
    requires Inv(p, v) && ValidRun(p, v, run)
    ensures Inv(p, Final(p, v, run))
    decreases |run|
  {
    if run != [] {
      OpKeepsInv(p, v, run[0]);
      RunKeepsInv(p, Apply(p, v, run[0]), run[1..]);
    }
  }

  // ----- Judged by the operations of the run alone

  /** Operation `i` is the last store under `k`. */
  predicate LatestStore(run: seq<Op>, k: Key, i: nat) {
    && i < |run| && run[i].Store? && run[i].key == k
    && (forall j :: i < j < |run| ==> !(run[j].Store? && run[j].key == k))
  }

  ghost predicate NeverStored(run: seq<Op>, k: Key) {
    forall j :: 0 <= j < |run| ==> !(run[j].Store? && run[j].key == k)
  }

  ghost predicate KeyLogged(past: seq<Op>, log: seq<Stored>, k: Key) {
    match LastStore(log, k)
    case None => NeverStored(past, k)
    case Some(s) => exists i: nat :: LatestStore(past, k, i) && past[i].records == s.records && past[i].now == s.at
  }

  lemma StepKeepsLogged(p: Policy, past: seq<Op>, v: View, op: Op, k: Key)
    requires KeyLogged(past, v.log, k)
    ensures KeyLogged(past + [op], Apply(p, v, op).log, k)
  {
    var longer, log := past + [op], Apply(p, v, op).log;
    if op.Store? && op.key == k {
      assert LatestStore(longer, k, |past|) && longer[|past|] == op;
    } else {
      assert op.Store? ==> log[..|v.log|] == v.log;
      if LastStore(v.log, k).Some? {
        var s := LastStore(v.log, k).value;
        var i: nat :| LatestStore(past, k, i) && past[i].records == s.records && past[i].now == s.at;
        assert LatestStore(longer, k, i) && longer[i] == past[i];
      }
    }
  }

  lemma {:induction false} RunKeepsLogged(p: Policy, past: seq<Op>, v: View, run: seq<Op>, k: Key)
    requires KeyLogged(past, v.log, k)
    ensures KeyLogged(past + run, Final(p, v, run).log, k)
    decreases |run|
  {
    if run == [] {
      assert past + run == past;
    } else {
      StepKeepsLogged(p, past, v, run[0], k);
      assert past + [run[0]] + run[1..] == past + run;
      RunKeepsLogged(p, past + [run[0]], Apply(p, v, run[0]), run[1..], k);
    }
  }

  function StoredKeys(run: seq<Op>): set<Key> { set i | 0 <= i < |run| && run[i].Store? :: run[i].key }

  /** As long as no more keys are stored than fit, nothing is evicted. */
  lemma {:induction false} FewKeysNeverEvict(p: Policy, v: View, run: seq<Op>, keys: set<Key>)
    requires v.entries.Keys <= keys && StoredKeys(run) <= keys && |keys| <= p.maxEntries
    ensures Final(p, v, run).evicted == v.evicted
    decreases |run|
  {
    if run != [] {
      var op := run[0];
      if op.Store? {
        assert op.key in StoredKeys(run);
        RoomForKey(p, v, op.key, keys);
      }
      assert forall i :: 0 <= i < |run[1..]| ==> run[1..][i] == run[i + 1];
      FewKeysNeverEvict(p, Apply(p, v, op), run[1..], keys);
    }
  }

  lemma RoomForKey(p: Policy, v: View, k: Key, keys: set<Key>)
    requires v.entries.Keys <= keys && k in keys && |keys| <= p.maxEntries
    ensures !MustEvict(p, v, k)
  {
    if k !in v.entries {
      var others := keys - {k};
      assert v.entries.Keys <= others;
      assert others == v.entries.Keys + (others - v.entries.Keys);
      assert |v.entries| == |v.entries.Keys|;
    }
  }

  /** The latest store of `k` in the run is younger than the lifetime of its kind. */
  ghost predicate FreshStore(p: Policy, run: seq<Op>, k: Key, now: nat, records: Records) {
    exists i: nat :: && LatestStore(run, k, i) && run[i].records == records
                     && now < run[i].now + (if records.Some? then p.cacheTtl else p.negativeTtl)
  }

  /** Whatever was evicted on the way, a hit is the value most recently stored under that key, and
      it was stored less than the lifetime of its kind ago. If no more keys were stored than fit, it
      hits exactly whenever it should. */
  lemma HitIsLatestStore(p: Policy, run: seq<Op>, k: Key, now: nat)
    requires ValidRun(p, Empty(), run) && now >= Final(p, Empty(), run).clock
    ensures var v := Final(p, Empty(), run);
            && (Hit(v, k, now).Some? ==> FreshStore(p, run, k, now, Hit(v, k, now).value))
            && (|StoredKeys(run)| <= p.maxEntries ==>
                  forall records :: Hit(v, k, now) == Some(records) <==> FreshStore(p, run, k, now, records))
  {
    var v := Final(p, Empty(), run);
    RunKeepsInv(p, Empty(), run);
    RunKeepsLogged(p, [], Empty(), run, k);
    assert [] + run == run;
    if k in v.entries {
      assert EntryOk(p, v, k);
    }
    if |StoredKeys(run)| <= p.maxEntries {
      FewKeysNeverEvict(p, Empty(), run, StoredKeys(run));
      forall records | FreshStore(p, run, k, now, records) ensures Hit(v, k, now) == Some(records) {
        FreshIsLogged(p, run, v.log, k, now, records);
      }
    }
  }

  lemma FreshIsLogged(p: Policy, run: seq<Op>, log: seq<Stored>, k: Key, now: nat, records: Records)
    requires KeyLogged(run, log, k) && FreshStore(p, run, k, now, records)
    ensures FreshAt(p, LastStore(log, k), now) && LastStore(log, k).value.records == records
  {
    var i: nat :| LatestStore(run, k, i) && run[i].records == records
                  && now < run[i].now + (if records.Some? then p.cacheTtl else p.negativeTtl);
    assert !NeverStored(run, k);
    var s := LastStore(log, k).value;
    var j: nat :| LatestStore(run, k, j) && run[j].records == s.records && run[j].now == s.at;
    assert i == j;
  }

  /** Random host names cannot grow the cache: with a validated limit (at least 1) the bound is the
      limit itself. */
  lemma SizeIsBounded(p: Policy, run: seq<Op>)
    requires ValidRun(p, Empty(), run)
    ensures |Final(p, Empty(), run).entries| <= Max(1, p.maxEntries)
    ensures p.maxEntries >= 1 ==> |Final(p, Empty(), run).entries| <= p.maxEntries
  {
    RunKeepsInv(p, Empty(), run);
  }

  // ----- The cache as the program keeps it: a map updated in place

  class Cache {
    const policy: Policy
    var entries: map<Key, Entry>
    ghost var log: seq<Stored>
    ghost var evicted: bool
    ghost var clock: nat

    ghost function Now(): View reads this { View(entries, log, evicted, clock) }

    constructor (p: Policy)
      ensures policy == p && Now() == Empty() && Inv(p, Now())
    {
      policy, entries, log, evicted, clock := p, map[], [], false, 0;
    }

    method LookupCache(k: Key, now: nat) returns (r: Option<Records>)
      requires Inv(policy, Now()) && now >= clock
      modifies this
      ensures Inv(policy, Now())
      ensures Now() == old(AfterLookup(Now(), k, now)) && r == old(Hit(Now(), k, now))
      ensures r.Some? ==> LastStore(log, k).Some? && LastStore(log, k).value.records == r.value
      ensures r.Some? ==> entries == old(entries) && k in entries && entries[k].records == r.value && now < entries[k].expires
      ensures r.None? ==> entries == old(entries) - {k} && (k in old(entries) ==> old(entries)[k].expires <= now)
    {
      OpKeepsInv(policy, Now(), Lookup(k, now));
      clock := now;
      if k in entries {
        var e := entries[k];
        assert EntryOk(policy, Now(), k);
        if e.expires > now {
          return Some(e.records);
        }
      }
      entries := entries - {k};
      return None;
    }

    method StoreCache(k: Key, records: Records, now: nat) returns (ghost victim: Key)
      requires Inv(policy, Now()) && now >= clock
      modifies this
      ensures Inv(policy, Now())
      ensures old(Enabled(policy, Now(), Store(k, records, now, victim)))
      ensures Now() == old(AfterStore(policy, Now(), k, records, now, victim))
      ensures k in entries && entries[k] == Entry(records, now + if records.Some? then policy.cacheTtl else policy.negativeTtl)
      ensures forall j :: j in entries && j != k ==> j in old(entries) && entries[j] == old(entries)[j]
      ensures forall j :: j in old(entries) && j !in entries ==>
                j == victim && k !in old(entries) && |old(entries)| >= policy.maxEntries
    {
      ghost var before := Now();
      victim := EvictFor(k);
      var ttl := if records.Some? then policy.cacheTtl else policy.negativeTtl;
      entries := entries[k := Entry(records, now + ttl)];
      log, clock := log + [Stored(k, records, now)], now;
      assert Now() == AfterStore(policy, before, k, records, now, victim);
      assert Inv(policy, AfterStore(policy, before, k, records, now, victim)) by {
        OpKeepsInv(policy, before, Store(k, records, now, victim));
      }
    }

    /** One arbitrary entry goes when a new key meets a full cache; otherwise nothing does. */
    method EvictFor(k: Key) returns (ghost victim: Key)
      modifies this
      ensures log == old(log) && clock == old(clock)
      ensures old(MustEvict(policy, Now(), k)) ==> victim in old(entries) && entries == old(entries) - {victim}
      ensures !old(MustEvict(policy, Now(), k)) ==> entries == old(entries)
      ensures evicted == old(evicted || MustEvict(policy, Now(), k))
    {
      victim := k;
      if |entries| >= policy.maxEntries && k !in entries {
        if entries != map[] {
          var chosen :| chosen in entries;
          entries := entries - {chosen};
          victim := chosen;
          evicted := true;
        }
      }
    }
  }
}
