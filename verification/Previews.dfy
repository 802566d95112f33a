/** The sidebar's sealed preview cache: a session cache, hydrated late from a copy kept per wallet. */
module Previews {
  import opened Base

  datatype Entry = Entry(text: string, order: int, at: Option<real>, verified: bool)

  type Cache = map<string, Entry>

  /** A load under way; its session is the wallet switch that started it, and its copy is what it read. */
  datatype Load = Load(wallet: string, session: nat, copy: Option<Cache>)

  datatype Save = Save(wallet: string, snapshot: Cache)

  /** What justified a save: the wallet shown at the time, and the copies merged since the last switch. */
  datatype Saved = Saved(save: Save, current: Option<string>, copies: seq<Cache>)

  datatype State = State(
    cache: Cache,
    hydrated: Option<string>,
    ready: Option<string>,
    loads: map<nat, Load>,
    nextLoad: nat,
    queue: seq<Save>,                 // the save chain, oldest first
    durable: map<string, Cache>,      // the sealed copies
    session: nat,
    copies: seq<Cache>,               // merged since the last switch
    log: seq<Saved>)

  /** Wallets arrive normalised: trimmed, in lower case, None when absent or empty. */
  datatype Event =
    | Hydrate(wallet: Option<string>)
    | ReadStore(id: nat, copy: Cache)   // a load has read and unsealed its copy
    | FinishLoad(id: nat)               // the load's continuation runs
    | Apply(group: string, entry: Entry)
    | Publish(group: string, text: string, order: int, at: Option<real>)
    | Persist(wallet: Option<string>)
    | Land(ok: bool)                    // the oldest queued save is written, or fails

  const START := State(map[], None, None, map[], 0, [], map[], 0, [], [])

  // ------------------------------------------------------------- the steps, on values

  /** The entry that stays when next meets what is cached. */
  function Settle(prev: Option<Entry>, next: Entry): Entry {
    if prev.None? then next
    else
      var p := prev.value;
      if next.order < p.order then p
      else if next.order == p.order
           && ((p.text == next.text && p.verified == next.verified && (next.at.None? || p.at == next.at))
               || (p.verified && !next.verified)) then p
      else next
  }

  function Cached(c: Cache, g: string): Option<Entry> {
    if g in c then Some(c[g]) else None
  }

  function Applied(c: Cache, g: string, next: Entry): Cache {
    c[g := Settle(Cached(c, g), next)]
  }

  /** Every stored entry meets the cache. */
  function Merged(c: Cache, stored: Cache): Cache {
    map g | g in c.Keys + stored.Keys :: if g in stored then Settle(Cached(c, g), stored[g]) else c[g]
  }

  function Persisted(s: State, wallet: Option<string>): State {
    if wallet.None? || s.ready != wallet then s
    else
      var save := Save(wallet.value, s.cache);
      s.(queue := s.queue + [save], log := s.log + [Saved(save, s.hydrated, s.copies)])
  }

  function Hydrated(s: State, wallet: Option<string>): State {
    if wallet.None? || s.hydrated == wallet then s
    else s.(cache := map[], hydrated := wallet, ready := None,
            loads := s.loads[s.nextLoad := Load(wallet.value, s.session + 1, None)], nextLoad := s.nextLoad + 1,
            session := s.session + 1, copies := [])
  }

  function Finished(s: State, id: nat): State {
    if id !in s.loads || s.loads[id].copy.None? then s
    else
      var load := s.loads[id];
      var t := s.(loads := s.loads - {id});
      if s.hydrated != Some(load.wallet) then t
      else
        Persisted(t.(cache := Merged(s.cache, load.copy.value), ready := Some(load.wallet),
                     copies := s.copies + [load.copy.value]),
                  Some(load.wallet))
  }

  function Published(s: State, g: string, e: Entry): State {
    if g == "" then s
    else
      var t := s.(cache := Applied(s.cache, g, e));
      if t.cache == s.cache then s else Persisted(t, s.hydrated)
  }

  function StoredFor(durable: map<string, Cache>, wallet: string): Cache {
    if wallet in durable then durable[wallet] else map[]
  }

  function Step(s: State, e: Event): State {
    match e
    case Hydrate(wallet) => Hydrated(s, wallet)
    case ReadStore(id, copy) =>
      if id in s.loads && s.loads[id].copy.None?
      then s.(loads := s.loads[id := s.loads[id].(copy := Some(copy))]) else s
    case FinishLoad(id) => Finished(s, id)
    case Apply(g, entry) => s.(cache := Applied(s.cache, g, entry))
    case Publish(g, text, order, at) => Published(s, g, Entry(text, order, at, true))
    case Persist(wallet) => Persisted(s, wallet)
    case Land(ok) =>
      if s.queue == [] then s
      else
        var save := s.queue[0];
        s.(queue := s.queue[1..], durable := if ok then s.durable[save.wallet := save.snapshot] else s.durable)
  }

  function Run(s: State, events: seq<Event>): State {
    if events == [] then s else Step(Run(s, events[..|events| - 1]), events[|events| - 1])
  }

  // --------------------------------------------------------- the module's variables

  class PreviewCache {
    var cache: Cache
    var hydratedWallet: Option<string>
    var readyWallet: Option<string>
    var loads: map<nat, Load>
    var nextLoad: nat
    var saveChain: seq<Save>
    ghost var durable: map<string, Cache>
    var session: nat
    ghost var copies: seq<Cache>
    ghost var log: seq<Saved>

    ghost function Now(): State
      reads this
    {
      State(cache, hydratedWallet, readyWallet, loads, nextLoad, saveChain, durable, session, copies, log)
    }

    constructor ()
      ensures Now() == START
    {
      cache, hydratedWallet, readyWallet := map[], None, None;
      loads, nextLoad, saveChain := map[], 0, [];
      durable, session, copies, log := map[], 0, [], [];
    }

    method EnsureHydrated(wallet: Option<string>)
      modifies this
      ensures Now() == Hydrated(old(Now()), wallet)
    {
      if wallet.None? || hydratedWallet == wallet { return; }
      cache := map[];
      hydratedWallet := wallet;
      readyWallet := None;
      session := session + 1;
      copies := [];
      loads := loads[nextLoad := Load(wallet.value, session, None)];
      nextLoad := nextLoad + 1;
    }

    method PersistPreviews(wallet: Option<string>)
      modifies this`saveChain, this`log
      ensures Now() == Persisted(old(Now()), wallet)
    {
      if wallet.None? || readyWallet != wallet { return; }
      var snapshot := cache;
      saveChain := saveChain + [Save(wallet.value, snapshot)];
      log := log + [Saved(Save(wallet.value, snapshot), hydratedWallet, copies)];
    }

    method ApplyPreview(g: string, next: Entry) returns (changed: bool)
      modifies this`cache
      ensures cache == Applied(old(cache), g, next)
      ensures changed <==> Fresher(old(cache), g, next)
      ensures cache == if changed then old(cache)[g := next] else old(cache)
    {
      if g in cache {
        var prev := cache[g];
        if next.order < prev.order || (next.order == prev.order
             && ((prev.text == next.text && prev.verified == next.verified && (next.at.None? || prev.at == next.at))
                 || (prev.verified && !next.verified))) {
          assert cache == Applied(cache, g, next);
          return false;
        }
      }
      cache := cache[g := next];
      return true;
    }

    /** The continuation of a load: what arrived meanwhile and is fresher wins. */
    method FinishLoading(id: nat)
      modifies this
      ensures Now() == Finished(old(Now()), id)
    {
      if id !in loads || loads[id].copy.None? { return; }
      var load := loads[id];
      loads := loads - {id};
      if hydratedWallet != Some(load.wallet) { return; }
      MergeStored(load.copy.value);
      readyWallet := Some(load.wallet);
      copies := copies + [load.copy.value];
      PersistPreviews(Some(load.wallet));
    }

    method MergeStored(stored: Cache)
      modifies this`cache
      ensures cache == Merged(old(cache), stored)
    {
      var rest := stored.Keys;
      ghost var before := cache;
      while rest != {}
        invariant rest <= stored.Keys
        invariant cache == Merged(before, Part(stored, stored.Keys - rest))
        decreases |rest|
      {
        ghost var some := Pick(rest);
        var g :| g in rest;
        assert stored.Keys - rest + {g} == stored.Keys - (rest - {g});
        MergeOne(before, stored, stored.Keys - rest, g);
        var changed := ApplyPreview(g, stored[g]);
        rest := rest - {g};
      }
      assert Part(stored, stored.Keys - {}) == stored;
    }

    method PublishSidebarMessagePreview(g: string, text: string, order: int, at: Option<real>)
      modifies this`cache, this`saveChain, this`log
      ensures Now() == Published(old(Now()), g, Entry(text, order, at, true))
    {
      if g == "" { return; }
      var changed := ApplyPreview(g, Entry(text, order, at, true));
      if changed {
        PersistPreviews(hydratedWallet);
      }
    }
  }

  /** The entries of the given groups. */
  ghost function Part(stored: Cache, done: set<string>): Cache {
    map g | g in stored && g in done :: stored[g]
  }

  lemma MergeOne(c: Cache, stored: Cache, done: set<string>, g: string)
    requires g in stored && g !in done
    ensures Applied(Merged(c, Part(stored, done)), g, stored[g]) == Merged(c, Part(stored, done + {g}))
  {
  }

  // ------------------------------------------------------------------ freshness

  /** At least the order; and at the same order, not from verified to unverified. */
  predicate AsFresh(old_: Entry, now: Entry) {
    old_.order < now.order || (old_.order == now.order && (old_.verified ==> now.verified))
  }

  /** Every group keeps an entry that is at least as fresh. */
  predicate Grows(old_: Cache, now: Cache) {
    forall g :: g in old_ ==> g in now && AsFresh(old_[g], now[g])
  }

  /** Every group keeps an entry of at least the order. */
  predicate Dominates(now: Cache, old_: Cache) {
    forall g :: g in old_ ==> g in now && old_[g].order <= now[g].order
  }

  /** The new entry is taken: there is none, or an older one; or one of the same order that does not say the same
      already, and is not verified while the new one is unverified. */
  predicate Fresher(c: Cache, g: string, next: Entry) {
    g in c ==>
      || next.order > c[g].order
      || (next.order == c[g].order && (c[g].verified ==> next.verified)
          && (next.text != c[g].text || next.verified != c[g].verified || (next.at != None && next.at != c[g].at)))
  }

  /** Merging a stored copy settles each of its groups, and leaves the others. */
  lemma MergedExactly(c: Cache, stored: Cache, g: string)
    ensures Cached(Merged(c, stored), g) ==
      if g in stored && Fresher(c, g, stored[g]) then Some(stored[g]) else Cached(c, g)
  {
  }

  predicate Switches(s: State, e: Event) {
    e.Hydrate? && e.wallet.Some? && s.hydrated != e.wallet
  }

  /** Between wallet switches no cached order goes down, and no verified entry gives way to an
      unverified one of the same order. */
  lemma StepGrows(s: State, e: Event)
    requires !Switches(s, e)
    ensures Grows(s.cache, Step(s, e).cache)
  {
  }

  lemma {:induction false} CacheGrowsBetweenSwitches(s: State, events: seq<Event>, k: nat)
    requires k <= |events|
    requires forall j :: k <= j < |events| ==> !Switches(Run(s, events[..j]), events[j])
    ensures Grows(Run(s, events[..k]).cache, Run(s, events).cache)
  {
    if k == |events| {
      assert events[..k] == events;
    } else {
      var n := |events| - 1;
      assert events[..n][..k] == events[..k];
      forall j | k <= j < n ensures !Switches(Run(s, events[..n][..j]), events[..n][j]) {
        assert events[..n][..j] == events[..j];
      }
      CacheGrowsBetweenSwitches(s, events[..n], k);
      StepGrows(Run(s, events[..n]), events[n]);
    }
  }

  // ------------------------------------------------------------- every save is justified

  /** The save is for the wallet shown, after its stored copy was merged, and holds every group of
      every copy merged since the switch with at least the loaded order. */
  ghost predicate Justified(x: Saved) {
    && x.current == Some(x.save.wallet)
    && x.copies != []
    && forall i :: 0 <= i < |x.copies| ==> Dominates(x.save.snapshot, x.copies[i])
  }

  ghost predicate Inv(s: State) {
    && (s.ready.Some? ==> s.ready == s.hydrated && s.copies != [])
    && (forall i :: 0 <= i < |s.copies| ==> Dominates(s.cache, s.copies[i]))
    && (forall i :: 0 <= i < |s.log| ==> Justified(s.log[i]))
  }

  lemma PersistedKeeps(s: State, wallet: Option<string>)
    requires Inv(s)
    ensures Inv(Persisted(s, wallet))
  {
  }

  lemma CacheChangeKeeps(s: State, c: Cache)
    requires Inv(s) && Grows(s.cache, c)
    ensures Inv(s.(cache := c))
  {
  }

  lemma StepKeepsInv(s: State, e: Event)
    requires Inv(s)
    ensures Inv(Step(s, e))
  {
    match e
    case Hydrate(_) =>
    case ReadStore(_, _) =>
    case FinishLoad(id) =>
      if id in s.loads && s.loads[id].copy.Some? && s.hydrated == Some(s.loads[id].wallet) {
        var copy := s.loads[id].copy.value;
        CacheChangeKeeps(s, Merged(s.cache, copy));
        PersistedKeeps(s.(loads := s.loads - {id}, cache := Merged(s.cache, copy),
                          ready := Some(s.loads[id].wallet), copies := s.copies + [copy]),
                       Some(s.loads[id].wallet));
      }
    case Apply(g, entry) => CacheChangeKeeps(s, Applied(s.cache, g, entry));
    case Publish(g, text, order, at) =>
      var c := Applied(s.cache, g, Entry(text, order, at, true));
      CacheChangeKeeps(s, c);
      PersistedKeeps(s.(cache := c), s.hydrated);
    case Persist(wallet) => PersistedKeeps(s, wallet);
    case Land(_) =>
  }

  lemma {:induction false} RunKeepsInv(events: seq<Event>)
    ensures Inv(Run(START, events))
  {
    if events != [] {
      RunKeepsInv(events[..|events| - 1]);
      StepKeepsInv(Run(START, events[..|events| - 1]), events[|events| - 1]);
    }
  }

  /** Over every run, whatever the loads return: no save happens before the current wallet's stored
      copy has loaded, and each saved snapshot covers what was loaded. */
  lemma EverySaveJustified(events: seq<Event>, i: nat)
    requires i < |Run(START, events).log|
    ensures Justified(Run(START, events).log[i])
  {
    RunKeepsInv(events);
  }

  /** A published preview that is not older than the cached one is shown as verified, and once the stored
      copy has loaded a change is queued to be saved with it. */
  lemma PublishShowsAndSaves(s: State, g: string, text: string, order: int, at: Option<real>)
    requires Inv(s) && g != "" && (g in s.cache ==> s.cache[g].order <= order)
    ensures var t := Step(s, Publish(g, text, order, at));
      && g in t.cache && t.cache[g].text == text && t.cache[g].order == order && t.cache[g].verified
      && (forall h :: h != g ==> Cached(t.cache, h) == Cached(s.cache, h))
      && (s.ready.Some? && t.cache != s.cache ==> t.queue == s.queue + [Save(s.hydrated.value, t.cache)])
  {
  }

  /** When the load of the wallet shown finishes, the merged cache is what is saved. */
  lemma FinishSavesMerged(s: State, id: nat)
    requires Inv(s) && id in s.loads && s.loads[id].copy.Some? && s.hydrated == Some(s.loads[id].wallet)
    ensures var t := Step(s, FinishLoad(id));
      && t.ready == s.hydrated && id !in t.loads
      && t.queue == s.queue + [Save(s.loads[id].wallet, t.cache)]
      && Grows(s.cache, t.cache) && Dominates(t.cache, s.loads[id].copy.value)
      && t.cache.Keys == s.cache.Keys + s.loads[id].copy.value.Keys
  {
  }

  // -------------------------------------------- nothing of one wallet is shown for another

  /** A load that finishes for a wallet that is not shown is dropped. */
  lemma StaleLoadDropped(s: State, id: nat)
    requires id in s.loads && s.hydrated != Some(s.loads[id].wallet)
    ensures var t := Step(s, FinishLoad(id));
      && t.cache == s.cache && t.hydrated == s.hydrated && t.ready == s.ready && t.queue == s.queue
      && t.durable == s.durable && t.session == s.session && t.copies == s.copies && t.log == s.log
  {
  }

  /** A wallet that is entered starts with an empty cache, unready, with one new load of its own copy; what is
      queued and stored stays. */
  lemma SwitchMeaning(s: State, wallet: string)
    requires s.hydrated != Some(wallet)
    ensures var t := Step(s, Hydrate(Some(wallet)));
      && t.cache == map[] && t.ready == None && t.hydrated == Some(wallet) && t.copies == []
      && t.queue == s.queue && t.durable == s.durable && t.log == s.log
      && s.nextLoad in t.loads && t.loads[s.nextLoad].wallet == wallet && t.loads[s.nextLoad].copy == None
      && (forall id :: id in s.loads && id != s.nextLoad ==> id in t.loads && t.loads[id] == s.loads[id])
  {
  }

  /** A publish without a group, and a switch to the wallet already shown or to none, do nothing. */
  lemma NothingToDo(s: State, e: Event)
    requires (e.Publish? && e.group == "") || (e.Hydrate? && (e.wallet == None || e.wallet == s.hydrated))
    ensures Step(s, e) == s
  {
  }

  /** The event brings this entry for the group. */
  predicate Brings(e: Event, g: string, entry: Entry) {
    || e == Apply(g, entry)
    || (e.Publish? && e.group == g && entry == Entry(e.text, e.order, e.at, true))
  }

  /** The entry was applied or published since the last switch. */
  ghost predicate BroughtSince(events: seq<Event>, g: string, entry: Entry) {
    exists k :: 0 <= k < |events| && Brings(events[k], g, entry) && NoSwitchBehind(events, k)
  }

  ghost predicate NoSwitchBehind(events: seq<Event>, k: int) {
    forall j :: 0 <= j < |events| && k <= j ==> !Switches(Run(START, events[..j]), events[j])
  }

  /** The copy was read by a load of the wallet shown, and taken since the last switch. */
  ghost predicate TakenSince(events: seq<Event>, copy: Cache) {
    exists k :: 0 <= k < |events| && TakesCopy(Run(START, events[..k]), events[k], copy) && NoSwitchBehind(events, k)
  }

  predicate TakesCopy(s: State, e: Event, copy: Cache) {
    && e.FinishLoad? && e.id in s.loads
    && s.loads[e.id].copy == Some(copy) && s.hydrated == Some(s.loads[e.id].wallet)
  }

  lemma SinceGrows(events: seq<Event>, e: Event, k: int)
    requires 0 <= k < |events| && NoSwitchBehind(events, k) && !Switches(Run(START, events), e)
    ensures NoSwitchBehind(events + [e], k)
  {
    var longer := events + [e];
    forall j | 0 <= j < |longer| && k <= j ensures !Switches(Run(START, longer[..j]), longer[j]) {
      if j < |events| {
        assert longer[..j] == events[..j];
      } else {
        assert longer[..j] == events;
      }
    }
  }

  lemma BroughtGrows(events: seq<Event>, e: Event, g: string, entry: Entry)
    requires BroughtSince(events, g, entry) && !Switches(Run(START, events), e)
    ensures BroughtSince(events + [e], g, entry)
  {
    var k :| 0 <= k < |events| && Brings(events[k], g, entry) && NoSwitchBehind(events, k);
    SinceGrows(events, e, k);
    assert Brings((events + [e])[k], g, entry);
  }

  lemma TakenGrows(events: seq<Event>, e: Event, copy: Cache)
    requires TakenSince(events, copy) && !Switches(Run(START, events), e)
    ensures TakenSince(events + [e], copy)
  {
    var k :| 0 <= k < |events| && TakesCopy(Run(START, events[..k]), events[k], copy) && NoSwitchBehind(events, k);
    SinceGrows(events, e, k);
    assert (events + [e])[..k] == events[..k];
    assert TakesCopy(Run(START, (events + [e])[..k]), (events + [e])[k], copy);
  }

  lemma JustNow(events: seq<Event>, e: Event)
    requires !Switches(Run(START, events), e)
    ensures NoSwitchBehind(events + [e], |events|)
  {
    var longer := events + [e];
    forall j | 0 <= j < |longer| && |events| <= j ensures !Switches(Run(START, longer[..j]), longer[j]) {
      assert longer[..j] == events;
    }
  }

  ghost predicate InCopies(copies: seq<Cache>, g: string, entry: Entry) {
    exists i :: 0 <= i < |copies| && g in copies[i] && copies[i][g] == entry
  }

  /** Every cached entry was applied or published since the last switch, or stands in a copy that was taken. */
  ghost predicate Explained(events: seq<Event>, c: Cache, copies: seq<Cache>) {
    && (forall g :: g in c ==> BroughtSince(events, g, c[g]) || InCopies(copies, g, c[g]))
    && (forall i :: 0 <= i < |copies| ==> TakenSince(events, copies[i]))
  }

  lemma ExplainedGrows(events: seq<Event>, e: Event, c: Cache, copies: seq<Cache>)
    requires Explained(events, c, copies) && !Switches(Run(START, events), e)
    ensures Explained(events + [e], c, copies)
  {
    forall g | g in c ensures BroughtSince(events + [e], g, c[g]) || InCopies(copies, g, c[g]) {
      if BroughtSince(events, g, c[g]) {
        BroughtGrows(events, e, g, c[g]);
      }
    }
    forall i | 0 <= i < |copies| ensures TakenSince(events + [e], copies[i]) {
      TakenGrows(events, e, copies[i]);
    }
  }

  lemma ExplainedEntry(events: seq<Event>, e: Event, c: Cache, copies: seq<Cache>, g: string, entry: Entry)
    requires Explained(events, c, copies) && !Switches(Run(START, events), e) && Brings(e, g, entry)
    ensures Explained(events + [e], Applied(c, g, entry), copies)
  {
    ExplainedGrows(events, e, c, copies);
    JustNow(events, e);
    assert Brings((events + [e])[|events|], g, entry);
    assert BroughtSince(events + [e], g, entry);
  }

  lemma ExplainedMerge(events: seq<Event>, e: Event, c: Cache, copies: seq<Cache>, copy: Cache)
    requires Explained(events, c, copies) && !Switches(Run(START, events), e)
    requires TakesCopy(Run(START, events), e, copy)
    ensures Explained(events + [e], Merged(c, copy), copies + [copy])
  {
    ExplainedGrows(events, e, c, copies);
    TakenNow(events, e, copy);
    var longer, all, merged := events + [e], copies + [copy], Merged(c, copy);
    forall g | g in merged ensures BroughtSince(longer, g, merged[g]) || InCopies(all, g, merged[g]) {
      if g in copy && merged[g] == copy[g] {
        assert g in all[|copies|] && all[|copies|][g] == merged[g];
      } else if !BroughtSince(longer, g, c[g]) {
        MoreCopies(copies, copy, g, c[g]);
      }
    }
    forall i | 0 <= i < |all| ensures TakenSince(longer, all[i]) {
      assert i < |copies| ==> all[i] == copies[i];
    }
  }

  lemma TakenNow(events: seq<Event>, e: Event, copy: Cache)
    requires TakesCopy(Run(START, events), e, copy) && !Switches(Run(START, events), e)
    ensures TakenSince(events + [e], copy)
  {
    JustNow(events, e);
    var longer := events + [e];
    assert longer[..|events|] == events;
    assert TakesCopy(Run(START, longer[..|events|]), longer[|events|], copy);
  }

  lemma MoreCopies(copies: seq<Cache>, copy: Cache, g: string, entry: Entry)
    requires InCopies(copies, g, entry)
    ensures InCopies(copies + [copy], g, entry)
  {
    var i :| 0 <= i < |copies| && g in copies[i] && copies[i][g] == entry;
    assert (copies + [copy])[i] == copies[i];
  }

  /** Over every run: whatever is shown for a wallet was brought while it was shown, or read from its own copy. */
  lemma {:induction false} ShownIsOwn(events: seq<Event>)
    ensures Explained(events, Run(START, events).cache, Run(START, events).copies)
  {
    if events != [] {
      var n := |events| - 1;
      var front, e := events[..n], events[n];
      var s := Run(START, front);
      assert events == front + [e];
      ShownIsOwn(front);
      if Switches(s, e) {
        assert Run(START, events).cache == map[] && Run(START, events).copies == [];
      } else {
        ShownStep(front, e, s);
      }
    }
  }

  lemma ShownStep(front: seq<Event>, e: Event, s: State)
    requires s == Run(START, front) && Explained(front, s.cache, s.copies) && !Switches(s, e)
    ensures Explained(front + [e], Step(s, e).cache, Step(s, e).copies)
  {
    ExplainedGrows(front, e, s.cache, s.copies);
    match e
    case FinishLoad(id) =>
      if Taken(s, id) {
        ExplainedMerge(front, e, s.cache, s.copies, s.loads[id].copy.value);
      }
    case Apply(g, entry) => ExplainedEntry(front, e, s.cache, s.copies, g, entry);
    case Publish(g, text, order, at) =>
      ExplainedEntry(front, e, s.cache, s.copies, g, Entry(text, order, at, true));
    case _ =>
  }

  /** What a load returns is what was read for it, and its wallet is the one that was entered when it started. */
  lemma {:induction false} LoadOrigin(events: seq<Event>, id: nat)
    requires id in Run(START, events).loads
    ensures var load := Run(START, events).loads[id];
      && (exists k :: 0 <= k < |events| && events[k] == Hydrate(Some(load.wallet)))
      && (load.copy.Some? ==> exists k :: 0 <= k < |events| && events[k] == ReadStore(id, load.copy.value))
  {
    if events != [] {
      var n := |events| - 1;
      var front, e := events[..n], events[n];
      var s := Run(START, front);
      var load := Run(START, events).loads[id];
      if id in s.loads && s.loads[id].wallet == load.wallet && s.loads[id].copy == load.copy {
        LoadOrigin(front, id);
        var k :| 0 <= k < |front| && front[k] == Hydrate(Some(load.wallet));
        assert events[k] == front[k];
        if load.copy.Some? {
          var j :| 0 <= j < |front| && front[j] == ReadStore(id, load.copy.value);
          assert events[j] == front[j];
        }
      } else if e.ReadStore? {
        LoadOrigin(front, id);
        var k :| 0 <= k < |front| && front[k] == Hydrate(Some(load.wallet));
        assert events[k] == front[k];
        assert events[n] == ReadStore(id, load.copy.value);
      } else {
        assert events[n] == Hydrate(Some(load.wallet));
      }
    }
  }

  // -------------------------------------------------------- the durable copy itself

  /** The cache covers the wallet's durable copy and all its queued saves. */
  ghost predicate Ahead(s: State, c: Cache, wallet: string) {
    && Dominates(c, StoredFor(s.durable, wallet))
    && forall i :: 0 <= i < |s.queue| && s.queue[i].wallet == wallet ==> Dominates(c, s.queue[i].snapshot)
  }

  /** Each queued save covers the durable copy and the earlier queued saves of its wallet. */
  ghost predicate Safe(s: State) {
    && (forall i :: 0 <= i < |s.queue| ==>
          Dominates(s.queue[i].snapshot, StoredFor(s.durable, s.queue[i].wallet)))
    && (forall i, j :: 0 <= i < j < |s.queue| && s.queue[i].wallet == s.queue[j].wallet ==>
          Dominates(s.queue[j].snapshot, s.queue[i].snapshot))
  }

  /** The queued saves, each of which may land or fail. */
  function Lands(oks: seq<bool>): seq<Event> {
    seq(|oks|, i requires 0 <= i < |oks| => Land(oks[i]))
  }

  /** This landing takes no group out of any sealed copy, and no group back to an older message. */
  ghost predicate Forward(before: State, after: State) {
    forall wallet :: Dominates(StoredFor(after.durable, wallet), StoredFor(before.durable, wallet))
  }

  /** However the queued saves land or fail, the last landing goes forward. */
  ghost predicate LandsForward(s: State, oks: seq<bool>) {
    oks != [] ==> Forward(Run(s, Lands(oks[..|oks| - 1])), Run(s, Lands(oks)))
  }

  lemma LandsStep(s: State, oks: seq<bool>)
    requires oks != []
    ensures Run(s, Lands(oks)) == Step(Run(s, Lands(oks[..|oks| - 1])), Land(oks[|oks| - 1]))
  {
    assert Lands(oks)[..|oks| - 1] == Lands(oks[..|oks| - 1]);
  }

  lemma {:induction false} LandsKeepSafe(s: State, oks: seq<bool>)
    requires Safe(s)
    ensures Safe(Run(s, Lands(oks)))
  {
    if oks != [] {
      LandsKeepSafe(s, oks[..|oks| - 1]);
      LandsStep(s, oks);
    }
  }

  function Failures(n: nat): seq<bool> {
    seq(n, i requires 0 <= i < n => false)
  }

  lemma {:induction false} FailuresDrain(s: State, n: nat)
    requires n <= |s.queue|
    ensures Run(s, Lands(Failures(n))).queue == s.queue[n..] && Run(s, Lands(Failures(n))).durable == s.durable
  {
    if n > 0 {
      FailuresDrain(s, n - 1);
      LandsStep(s, Failures(n));
      assert Failures(n)[..n - 1] == Failures(n - 1);
    }
  }

  lemma {:induction false} RunAppend(s: State, a: seq<Event>, b: seq<Event>)
    ensures Run(s, a + b) == Run(Run(s, a), b)
  {
    if b == [] {
      assert a + b == a;
    } else {
      RunAppend(s, a, b[..|b| - 1]);
      assert (a + b)[..|a + b| - 1] == a + b[..|b| - 1];
    }
  }

  lemma LandsAppend(s: State, a: seq<bool>, b: seq<bool>)
    ensures Run(s, Lands(a + b)) == Run(Run(s, Lands(a)), Lands(b))
  {
    assert Lands(a + b) == Lands(a) + Lands(b);
    RunAppend(s, Lands(a), Lands(b));
  }

  /** When all saves before the i-th fail, it lands on the present copy. */
  lemma OneLands(s: State, i: nat)
    requires i < |s.queue| && LandsForward(s, Failures(i) + [true])
    ensures Dominates(s.queue[i].snapshot, StoredFor(s.durable, s.queue[i].wallet))
    ensures var t := Run(s, Lands(Failures(i) + [true]));
      t.queue == s.queue[i + 1..] && t.durable == s.durable[s.queue[i].wallet := s.queue[i].snapshot]
  {
    var oks := Failures(i) + [true];
    FailuresDrain(s, i);
    LandsStep(s, oks);
    assert oks[..i] == Failures(i);
    var before, after := Run(s, Lands(Failures(i))), Run(s, Lands(oks));
    assert Forward(before, after);
    var w := s.queue[i].wallet;
    assert Dominates(StoredFor(after.durable, w), StoredFor(before.durable, w));
  }

  /** When only the i-th and the j-th save land, the j-th replaces the i-th. */
  lemma TwoLand(s: State, i: nat, j: nat)
    requires i < j < |s.queue| && s.queue[i].wallet == s.queue[j].wallet
    requires forall oks :: LandsForward(s, oks)
    ensures Dominates(s.queue[j].snapshot, s.queue[i].snapshot)
  {
    var first, rest := Failures(i) + [true], Failures(j - i - 1) + [true];
    OneLands(s, i);
    var t := Run(s, Lands(first));
    LandsAppend(s, first, rest);
    assert (first + rest)[..|first + rest| - 1] == first + Failures(j - i - 1);
    LandsAppend(s, first, Failures(j - i - 1));
    assert rest[..|rest| - 1] == Failures(j - i - 1);
    assert LandsForward(s, first + rest);
    OneLands(t, j - i - 1);
    assert t.queue[j - i - 1] == s.queue[j];
  }

  /** Safe says exactly that no sealed copy goes back, whichever of the queued saves land. */
  lemma SafeExactly(s: State)
    ensures Safe(s) <==> forall oks :: LandsForward(s, oks)
  {
    if Safe(s) {
      forall oks ensures LandsForward(s, oks) {
        if oks != [] {
          LandsKeepSafe(s, oks[..|oks| - 1]);
          LandsStep(s, oks);
        }
      }
    }
    if forall oks :: LandsForward(s, oks) {
      forall i | 0 <= i < |s.queue|
        ensures Dominates(s.queue[i].snapshot, StoredFor(s.durable, s.queue[i].wallet))
      {
        OneLands(s, i);
      }
      forall i, j | 0 <= i < j < |s.queue| && s.queue[i].wallet == s.queue[j].wallet
        ensures Dominates(s.queue[j].snapshot, s.queue[i].snapshot)
      {
        TwoLand(s, i, j);
      }
    }
  }

  /** A load is taken: it has read, and its wallet is the one shown. */
  predicate Taken(s: State, id: nat) {
    id in s.loads && s.loads[id].copy.Some? && s.hydrated == Some(s.loads[id].wallet)
  }

  /** A load that is taken, merged into the cache, covers its wallet's sealed copy and queued saves. */
  ghost predicate Covers(s: State, e: Event) {
    e.FinishLoad? && Taken(s, e.id) ==>
      Ahead(s, Merged(s.cache, s.loads[e.id].copy.value), s.loads[e.id].wallet)
  }

  lemma PushSafe(s: State, save: Save)
    requires Safe(s)
    ensures Safe(s.(queue := s.queue + [save])) <==> Ahead(s, save.snapshot, save.wallet)
  {
    var t := s.(queue := s.queue + [save]);
    assert t.queue[|s.queue|] == save;
    assert forall i :: 0 <= i < |s.queue| ==> t.queue[i] == s.queue[i];
    if Safe(t) {
      assert Dominates(t.queue[|s.queue|].snapshot, StoredFor(t.durable, t.queue[|s.queue|].wallet));
      forall i | 0 <= i < |s.queue| && s.queue[i].wallet == save.wallet
        ensures Dominates(save.snapshot, s.queue[i].snapshot)
      {
        assert t.queue[i].wallet == t.queue[|s.queue|].wallet;
      }
    }
  }

  /** Exactly when a load that finishes keeps the sealed copies safe. */
  lemma FinishSafeExactly(s: State, id: nat)
    requires Safe(s)
    ensures Safe(Finished(s, id)) <==> Covers(s, FinishLoad(id))
  {
    if Taken(s, id) {
      PushSafe(s, Save(s.loads[id].wallet, Merged(s.cache, s.loads[id].copy.value)));
    }
  }

  /** Safe, and the cache of a wallet that may save is ahead of its sealed copy. */
  ghost predicate Sound(s: State) {
    && Safe(s)
    && (s.ready.Some? ==> s.ready == s.hydrated && Ahead(s, s.cache, s.ready.value))
  }

  lemma GrowKeepsSound(s: State, c: Cache)
    requires Sound(s) && Grows(s.cache, c)
    ensures Sound(s.(cache := c))
  {
  }

  lemma PersistKeepsSound(s: State, wallet: Option<string>)
    requires Sound(s)
    ensures Sound(Persisted(s, wallet))
  {
    if wallet.Some? && s.ready == wallet {
      PushSafe(s, Save(wallet.value, s.cache));
    }
  }

  lemma FinishKeepsSound(s: State, id: nat)
    requires Sound(s) && Covers(s, FinishLoad(id))
    ensures Sound(Finished(s, id))
  {
    if Taken(s, id) {
      var load := s.loads[id];
      var c := Merged(s.cache, load.copy.value);
      PersistKeepsSound(s.(loads := s.loads - {id}, cache := c, ready := Some(load.wallet),
                           copies := s.copies + [load.copy.value]),
                        Some(load.wallet));
    }
  }

  lemma StepKeepsSound(s: State, e: Event)
    requires Sound(s) && Covers(s, e)
    ensures Sound(Step(s, e))
  {
    match e
    case Hydrate(wallet) =>
    case ReadStore(_, _) =>
    case FinishLoad(id) => FinishKeepsSound(s, id);
    case Apply(g, entry) => GrowKeepsSound(s, Applied(s.cache, g, entry));
    case Publish(g, text, order, at) =>
      var c := Applied(s.cache, g, Entry(text, order, at, true));
      GrowKeepsSound(s, c);
      PersistKeepsSound(s.(cache := c), s.hydrated);
    case Persist(wallet) => PersistKeepsSound(s, wallet);
    case Land(ok) =>
  }

  ghost predicate CoveredRun(events: seq<Event>) {
    forall k :: 0 <= k < |events| ==> Covers(Run(START, events[..k]), events[k])
  }

  lemma {:induction false} CoveredKeepsSound(events: seq<Event>, n: nat)
    requires n <= |events| && CoveredRun(events)
    ensures Sound(Run(START, events[..n]))
  {
    if n > 0 {
      CoveredKeepsSound(events, n - 1);
      RunStep(events, n - 1);
      SoundStep(Run(START, events[..n - 1]), events[n - 1], Run(START, events[..n]));
    }
  }

  lemma SoundStep(s: State, e: Event, t: State)
    requires Sound(s) && Covers(s, e) && t == Step(s, e)
    ensures Sound(t)
  {
    StepKeepsSound(s, e);
  }

  lemma RunStep(events: seq<Event>, k: nat)
    requires k < |events|
    ensures Run(START, events[..k + 1]) == Step(Run(START, events[..k]), events[k])
  {
    assert events[..k + 1][..k] == events[..k];
  }

  /** In every run, whatever the loads return: at no moment can the queued saves take any sealed copy back,
      exactly when each load that was taken covered its wallet's sealed copy and queued saves. */
  lemma DurableExactly(events: seq<Event>)
    ensures (forall n :: 0 <= n <= |events| ==> Safe(Run(START, events[..n]))) <==> CoveredRun(events)
  {
    if CoveredRun(events) {
      forall n | 0 <= n <= |events| ensures Safe(Run(START, events[..n])) {
        CoveredKeepsSound(events, n);
      }
    }
    if forall n :: 0 <= n <= |events| ==> Safe(Run(START, events[..n])) {
      forall k | 0 <= k < |events| ensures Covers(Run(START, events[..k]), events[k]) {
        RunStep(events, k);
        assert Safe(Run(START, events[..k + 1]));
        if events[k].FinishLoad? {
          FinishSafeExactly(Run(START, events[..k]), events[k].id);
        }
      }
    }
  }

  // --------------------------------------------- three conditions that together suffice

  /** Which of the three conditions a run respects. */
  datatype Care = Care(whole: bool, waits: bool, current: bool)

  /** Loads succeed: they return at least what is stored. A failed read or decryption returns nothing. */
  predicate ReadsAll(s: State, e: Event) {
    e.ReadStore? && e.id in s.loads ==> Dominates(e.copy, StoredFor(s.durable, s.loads[e.id].wallet))
  }

  /** No save for the wallet is still queued when a load reads its copy. */
  predicate ReadsDrained(s: State, e: Event) {
    e.ReadStore? && e.id in s.loads ==>
      forall i :: 0 <= i < |s.queue| ==> s.queue[i].wallet != s.loads[e.id].wallet
  }

  /** A load that finishes for the wallet shown was started by the present switch. */
  predicate FinishesInOwnSession(s: State, e: Event) {
    e.FinishLoad? && e.id in s.loads && s.hydrated == Some(s.loads[e.id].wallet) ==>
      s.loads[e.id].session == s.session
  }

  predicate Careful(care: Care, s: State, e: Event) {
    && (care.whole ==> ReadsAll(s, e))
    && (care.waits ==> ReadsDrained(s, e))
    && (care.current ==> FinishesInOwnSession(s, e))
  }

  ghost predicate CarefulRun(care: Care, events: seq<Event>) {
    forall k :: 0 <= k < |events| ==> Careful(care, Run(START, events[..k]), events[k])
  }

  const ALL := Care(true, true, true)

  /** The load of the present session: nothing is saved before it finishes, so what it read stays current. */
  ghost predicate CurrentLoad(s: State, id: nat)
    requires id in s.loads
  {
    && s.ready.None?
    && s.hydrated == Some(s.loads[id].wallet)
    && (forall other :: other in s.loads && s.loads[other].session == s.session ==> other == id)
    && (s.loads[id].copy.Some? ==> Ahead(s, s.loads[id].copy.value, s.loads[id].wallet))
    && (s.loads[id].copy.Some? ==> forall i :: 0 <= i < |s.queue| ==> s.queue[i].wallet != s.loads[id].wallet)
  }

  ghost predicate LoadsInv(s: State) {
    && (forall id :: id in s.loads ==> id < s.nextLoad && s.loads[id].session <= s.session)
    && (forall id :: id in s.loads && s.loads[id].session == s.session ==> CurrentLoad(s, id))
  }

  lemma PersistKeepsLoads(s: State, wallet: Option<string>)
    requires LoadsInv(s) && (s.ready.Some? ==> s.ready == s.hydrated)
    ensures LoadsInv(Persisted(s, wallet))
  {
  }

  lemma CacheKeepsLoads(s: State, c: Cache)
    requires LoadsInv(s)
    ensures LoadsInv(s.(cache := c))
  {
    var t := s.(cache := c);
    forall id | id in t.loads && t.loads[id].session == t.session ensures CurrentLoad(t, id) {
      assert CurrentLoad(s, id);
    }
  }

  lemma ReadKeepsLoads(s: State, e: Event)
    requires LoadsInv(s) && e.ReadStore? && ReadsAll(s, e) && ReadsDrained(s, e)
    ensures LoadsInv(Step(s, e))
  {
    var t := Step(s, e);
    forall id | id in t.loads && t.loads[id].session == t.session ensures CurrentLoad(t, id) {
      assert CurrentLoad(s, id);
    }
  }

  lemma FinishKeepsLoads(s: State, id: nat)
    requires LoadsInv(s) && FinishesInOwnSession(s, FinishLoad(id))
    ensures LoadsInv(Finished(s, id))
  {
    if id in s.loads && s.loads[id].copy.Some? {
      var t := s.(loads := s.loads - {id});
      forall other | other in t.loads && t.loads[other].session == t.session ensures CurrentLoad(t, other) {
        assert CurrentLoad(s, other);
      }
      if Taken(s, id) {
        assert CurrentLoad(s, id);
        assert forall other :: other in t.loads ==> t.loads[other].session != t.session;
      }
    }
  }

  lemma LandKeepsLoads(s: State, ok: bool)
    requires LoadsInv(s)
    ensures LoadsInv(Step(s, Land(ok)))
  {
    if s.queue != [] {
      var t := Step(s, Land(ok));
      assert forall i :: 0 <= i < |t.queue| ==> t.queue[i] == s.queue[i + 1];
      forall id | id in t.loads && t.loads[id].session == t.session ensures CurrentLoad(t, id) {
        assert CurrentLoad(s, id);
      }
    }
  }

  lemma StepKeepsLoads(s: State, e: Event)
    requires LoadsInv(s) && Careful(ALL, s, e) && (s.ready.Some? ==> s.ready == s.hydrated)
    ensures LoadsInv(Step(s, e))
  {
    match e
    case Hydrate(wallet) =>
    case ReadStore(_, _) => ReadKeepsLoads(s, e);
    case FinishLoad(id) => FinishKeepsLoads(s, id);
    case Apply(g, entry) => CacheKeepsLoads(s, Applied(s.cache, g, entry));
    case Publish(g, text, order, at) =>
      var c := Applied(s.cache, g, Entry(text, order, at, true));
      CacheKeepsLoads(s, c);
      PersistKeepsLoads(s.(cache := c), s.hydrated);
    case Persist(wallet) => PersistKeepsLoads(s, wallet);
    case Land(ok) => LandKeepsLoads(s, ok);
  }

  /** A load of its own session that read all, with no save queued, covers. */
  lemma CareCovers(s: State, e: Event)
    requires LoadsInv(s) && Careful(ALL, s, e)
    ensures Covers(s, e)
  {
    if e.FinishLoad? && Taken(s, e.id) {
      var load := s.loads[e.id];
      assert CurrentLoad(s, e.id);
      assert Dominates(Merged(s.cache, load.copy.value), StoredFor(s.durable, load.wallet));
    }
  }

  lemma {:induction false} CarefulRunKeeps(events: seq<Event>, n: nat)
    requires n <= |events| && CarefulRun(ALL, events)
    ensures LoadsInv(Run(START, events[..n])) && Sound(Run(START, events[..n]))
  {
    if n > 0 {
      CarefulRunKeeps(events, n - 1);
      var s := Run(START, events[..n - 1]);
      RunStep(events, n - 1);
      CareCovers(s, events[n - 1]);
      SoundStep(s, events[n - 1], Run(START, events[..n]));
      StepKeepsLoads(s, events[n - 1]);
    }
  }

  /** When loads succeed, read after the wallet's queued saves have landed, and finish in the session that
      started them, every load covers; so no sealed copy ever loses a group or goes back. */
  lemma DurableNeverGoesBack(events: seq<Event>, n: nat)
    requires n < |events| && CarefulRun(ALL, events)
    ensures CoveredRun(events)
    ensures Forward(Run(START, events[..n]), Run(START, events[..n + 1]))
  {
    forall k | 0 <= k < |events| ensures Covers(Run(START, events[..k]), events[k]) {
      CarefulRunKeeps(events, k);
      CareCovers(Run(START, events[..k]), events[k]);
    }
    CarefulRunKeeps(events, n);
    RunStep(events, n);
    StepGoesForward(Run(START, events[..n]), events[n]);
  }

  lemma StepGoesForward(s: State, e: Event)
    requires Safe(s)
    ensures Forward(s, Step(s, e))
  {
  }

  // ------------------------------------------------ none of the three can be left out

  /** The run respects the care, and its last step empties the wallet's sealed copy, which held the preview. */
  ghost predicate Loses(care: Care, events: seq<Event>, wallet: string, held: Cache) {
    && events != []
    && CarefulRun(care, events)
    && StoredFor(Run(START, events[..|events| - 1]).durable, wallet) == held
    && StoredFor(Run(START, events).durable, wallet) == map[]
  }

  /** The states of a careful run: one more than its events. */
  ghost predicate Trace(care: Care, start: State, events: seq<Event>, states: seq<State>) {
    && |states| == |events| + 1 && states[0] == start
    && forall k :: 0 <= k < |events| ==>
         states[k + 1] == Step(states[k], events[k]) && Careful(care, states[k], events[k])
  }

  lemma {:induction false} TraceIsRun(care: Care, events: seq<Event>, states: seq<State>, k: nat)
    requires Trace(care, START, events, states) && k <= |events|
    ensures Run(START, events[..k]) == states[k]
  {
    if k > 0 {
      TraceIsRun(care, events, states, k - 1);
      RunStep(events, k - 1);
    }
  }

  lemma TraceLoses(care: Care, events: seq<Event>, states: seq<State>, wallet: string, held: Cache)
    requires events != [] && Trace(care, START, events, states)
    requires StoredFor(states[|events| - 1].durable, wallet) == held
    requires StoredFor(states[|events|].durable, wallet) == map[]
    ensures Loses(care, events, wallet, held)
  {
    forall k | 0 <= k < |events| ensures Careful(care, Run(START, events[..k]), events[k]) {
      TraceIsRun(care, events, states, k);
    }
    TraceIsRun(care, events, states, |events| - 1);
    TraceIsRun(care, events, states, |events|);
    assert events[..|events|] == events;
  }

  lemma TraceAppend(care: Care, start: State, es: seq<Event>, ss: seq<State>, fs: seq<Event>, ts: seq<State>)
    requires Trace(care, start, es, ss) && Trace(care, ss[|es|], fs, ts)
    ensures Trace(care, start, es + fs, ss + ts[1..])
    ensures forall k :: 0 <= k <= |fs| ==> (ss + ts[1..])[|es| + k] == ts[k]
  {
  }

  /** Wallet a is entered for the first time. */
  function FirstLoad(a: string): seq<Event> {
    [Hydrate(Some(a)), ReadStore(0, map[]), FinishLoad(0), Land(true)]
  }

  lemma TraceFirstLoad(a: string) returns (t: seq<State>)
    ensures Trace(ALL, START, FirstLoad(a), t)
    ensures var s := t[4];
      && s.hydrated == s.ready == Some(a) && s.nextLoad == 1 && s.session == 1 && s.loads == map[]
      && s.durable == map[a := map[]] && s.cache == map[] && s.queue == []
  {
    var s1 := Step(START, Hydrate(Some(a)));
    var s2 := Step(s1, ReadStore(0, map[]));
    assert s2.loads == map[0 := Load(a, 1, Some(map[]))];
    var s3 := Step(s2, FinishLoad(0));
    assert s3.loads == map[] && s3.cache == map[];
    var s4 := Step(s3, Land(true));
    t := [START, s1, s2, s3, s4];
  }

  lemma LessCare(care: Care, start: State, events: seq<Event>, states: seq<State>)
    requires Trace(ALL, start, events, states)
    ensures Trace(care, start, events, states)
  {
  }

  function Tip(g: string, text: string, order: int): Cache {
    map[g := Entry(text, order, None, true)]
  }

  /** The wallet is left and entered again. */
  lemma Reentered(s: State, a: string, b: string)
    requires a != b && s.hydrated == Some(a)
    ensures var t := Step(s, Hydrate(Some(b)));
      var u := Step(t, Hydrate(Some(a)));
      && u.hydrated == Some(a) && u.ready == None && u.cache == map[] && u.copies == []
      && u.queue == t.queue == s.queue && u.durable == t.durable == s.durable
      && u.session == s.session + 2 && u.nextLoad == s.nextLoad + 2
      && u.loads == s.loads[s.nextLoad := Load(b, s.session + 1, None)][s.nextLoad + 1 := Load(a, s.session + 2, None)]
  {
  }

  /** The shown wallet publishes a preview, which lands; it is left and entered again. */
  function Visit(a: string, b: string, g: string, text: string, order: int): seq<Event> {
    [Publish(g, text, order, None), Land(true), Hydrate(Some(b)), Hydrate(Some(a))]
  }

  lemma TraceVisit(s: State, a: string, b: string, g: string, text: string, order: int) returns (t: seq<State>)
    requires a != b && g != "" && s.hydrated == s.ready == Some(a)
    requires s.cache == map[] && s.queue == [] && s.durable == map[a := map[]]
    ensures Trace(ALL, s, Visit(a, b, g, text, order), t)
    ensures var u := t[4];
      && u.hydrated == Some(a) && u.ready == None && u.cache == map[] && u.queue == []
      && u.durable == map[a := Tip(g, text, order)] && u.session == s.session + 2
      && u.loads == s.loads[s.nextLoad := Load(b, s.session + 1, None)][s.nextLoad + 1 := Load(a, s.session + 2, None)]
  {
    TipLands(s, a, g, text, order);
    var s1 := Step(s, Publish(g, text, order, None));
    var s2 := Step(s1, Land(true));
    Reentered(s2, a, b);
    var s3 := Step(s2, Hydrate(Some(b)));
    t := [s, s1, s2, s3, Step(s3, Hydrate(Some(a)))];
  }

  lemma TipLands(s: State, a: string, g: string, text: string, order: int)
    requires g != "" && s.hydrated == s.ready == Some(a)
    requires s.cache == map[] && s.queue == [] && s.durable == map[a := map[]]
    ensures var u := Step(Step(s, Publish(g, text, order, None)), Land(true));
      && u.hydrated == Some(a) && u.queue == [] && u.durable == map[a := Tip(g, text, order)]
      && u.session == s.session && u.nextLoad == s.nextLoad && u.loads == s.loads
  {
    var t := Step(s, Publish(g, text, order, None));
    assert t.cache == Tip(g, text, order) && t.queue == [Save(a, Tip(g, text, order))];
  }

  /** A load that finishes for the wallet, having read nothing into an empty cache, empties its copy. */
  lemma EmptyLoadSaved(s: State, id: nat, a: string, tip: Cache)
    requires id in s.loads && s.loads[id].wallet == a && s.loads[id].copy == Some(map[])
    requires s.hydrated == Some(a) && s.cache == map[] && s.queue == [] && s.durable == map[a := tip]
    ensures var u := Step(s, FinishLoad(id));
      u.durable == s.durable && Step(u, Land(true)).durable == map[a := map[]]
  {
    var u := Step(s, FinishLoad(id));
    assert u.cache == map[] && u.queue == [Save(a, map[])];
  }

  /** A load is not chained behind the queued saves. In these runs wallet a publishes a preview, is left
      and entered again while the save is queued, and the second load reads too early. */
  function EarlyRead(a: string, b: string, g: string, text: string, order: int): seq<Event> {
    FirstLoad(a) + (ShortVisit(a, b, g, text, order) + LateLanding())
  }

  function ShortVisit(a: string, b: string, g: string, text: string, order: int): seq<Event> {
    [Publish(g, text, order, None), Hydrate(Some(b)), Hydrate(Some(a)), ReadStore(2, map[])]
  }

  function LateLanding(): seq<Event> {
    [Land(true), FinishLoad(2), Land(true)]
  }

  lemma TraceShortVisit(care: Care, s: State, a: string, b: string, g: string, text: string, order: int)
    returns (t: seq<State>)
    requires a != b && g != "" && s.hydrated == s.ready == Some(a) && s.nextLoad == 1 && s.loads == map[]
    requires s.cache == map[] && s.queue == [] && s.durable == map[a := map[]] && !care.waits
    ensures Trace(care, s, ShortVisit(a, b, g, text, order), t)
    ensures var u := t[4];
      && u.hydrated == Some(a) && u.cache == map[] && u.queue == [Save(a, Tip(g, text, order))]
      && u.durable == map[a := map[]] && 2 in u.loads && u.loads[2] == Load(a, u.session, Some(map[]))
  {
    var s1 := Step(s, Publish(g, text, order, None));
    assert s1.cache == Tip(g, text, order) && s1.queue == [Save(a, Tip(g, text, order))];
    Reentered(s1, a, b);
    var s2 := Step(s1, Hydrate(Some(b)));
    var s3 := Step(s2, Hydrate(Some(a)));
    var s4 := Step(s3, ReadStore(2, map[]));
    t := [s, s1, s2, s3, s4];
  }

  lemma TraceLateLanding(care: Care, s: State, a: string, tip: Cache) returns (t: seq<State>)
    requires s.hydrated == Some(a) && s.cache == map[] && s.queue == [Save(a, tip)] && s.durable == map[a := map[]]
    requires 2 in s.loads && s.loads[2] == Load(a, s.session, Some(map[]))
    ensures Trace(care, s, LateLanding(), t)
    ensures t[2].durable == map[a := tip] && t[3].durable == map[a := map[]]
  {
    var s1 := Step(s, Land(true));
    assert s1.queue == [] && s1.durable == map[a := tip];
    EmptyLoadSaved(s1, 2, a, tip);
    var s2 := Step(s1, FinishLoad(2));
    t := [s, s1, s2, Step(s2, Land(true))];
  }

  lemma EarlyReadLosesPreview(a: string, b: string, g: string, text: string, order: int)
    requires a != b && g != ""
    ensures Loses(Care(true, false, true), EarlyRead(a, b, g, text, order), a, Tip(g, text, order))
  {
    var care := Care(true, false, true);
    var t1 := TraceFirstLoad(a);
    LessCare(care, START, FirstLoad(a), t1);
    var t2 := TraceShortVisit(care, t1[4], a, b, g, text, order);
    var t3 := TraceLateLanding(care, t2[4], a, Tip(g, text, order));
    JoinedLoses(care, FirstLoad(a), t1, ShortVisit(a, b, g, text, order), t2, LateLanding(), t3, a, Tip(g, text, order));
  }

  /** Three stretches of a run, the last of which loses the preview. */
  lemma JoinedLoses(care: Care, e1: seq<Event>, t1: seq<State>, e2: seq<Event>, t2: seq<State>,
                    e3: seq<Event>, t3: seq<State>, a: string, tip: Cache)
    requires Trace(care, START, e1, t1) && Trace(care, t1[|e1|], e2, t2) && Trace(care, t2[|e2|], e3, t3)
    requires |e3| >= 1 && t3[|e3| - 1].durable == map[a := tip] && t3[|e3|].durable == map[a := map[]]
    ensures Loses(care, e1 + (e2 + e3), a, tip)
  {
    TraceAppend(care, t1[|e1|], e2, t2, e3, t3);
    var t23 := t2 + t3[1..];
    assert t23[|e2 + e3|].durable == map[a := map[]];
    assert t23[|e2| + (|e3| - 1)] == t3[|e3| - 1];
    JoinedToStart(care, e1, t1, e2 + e3, t23, a, tip);
  }

  lemma JoinedToStart(care: Care, e1: seq<Event>, t1: seq<State>, e2: seq<Event>, t2: seq<State>, a: string, tip: Cache)
    requires Trace(care, START, e1, t1) && Trace(care, t1[|e1|], e2, t2)
    requires |e2| >= 1 && t2[|e2| - 1].durable == map[a := tip] && t2[|e2|].durable == map[a := map[]]
    ensures Loses(care, e1 + e2, a, tip)
  {
    TraceAppend(care, START, e1, t1, e2, t2);
    var states := t1 + t2[1..];
    assert states[|e1| + |e2|] == t2[|e2|];
    assert states[|e1| + (|e2| - 1)] == t2[|e2| - 1];
    TraceLoses(care, e1 + e2, states, a, tip);
  }

  /** A failed read returns no previews. In these runs the save has landed before the wallet is entered
      again, but the second load fails to read or to decrypt it. */
  function FailedRead(a: string, b: string, g: string, text: string, order: int): seq<Event> {
    FirstLoad(a) + (Visit(a, b, g, text, order) + FailedLoad())
  }

  function FailedLoad(): seq<Event> {
    [ReadStore(2, map[]), FinishLoad(2), Land(true)]
  }

  lemma TraceFailedLoad(care: Care, s: State, a: string, tip: Cache) returns (t: seq<State>)
    requires s.hydrated == Some(a) && s.cache == map[] && s.queue == [] && s.durable == map[a := tip] && !care.whole
    requires 2 in s.loads && s.loads[2] == Load(a, s.session, None)
    ensures Trace(care, s, FailedLoad(), t)
    ensures t[2].durable == map[a := tip] && t[3].durable == map[a := map[]]
  {
    var s1 := Step(s, ReadStore(2, map[]));
    EmptyLoadSaved(s1, 2, a, tip);
    var s2 := Step(s1, FinishLoad(2));
    t := [s, s1, s2, Step(s2, Land(true))];
  }

  lemma FailedReadLosesPreview(a: string, b: string, g: string, text: string, order: int)
    requires a != b && g != ""
    ensures Loses(Care(false, true, true), FailedRead(a, b, g, text, order), a, Tip(g, text, order))
  {
    var care := Care(false, true, true);
    var t1 := TraceFirstLoad(a);
    LessCare(care, START, FirstLoad(a), t1);
    var t2 := TraceVisit(t1[4], a, b, g, text, order);
    LessCare(care, t1[4], Visit(a, b, g, text, order), t2);
    var t3 := TraceFailedLoad(care, t2[4], a, Tip(g, text, order));
    JoinedLoses(care, FirstLoad(a), t1, Visit(a, b, g, text, order), t2, FailedLoad(), t3, a, Tip(g, text, order));
  }

  /** The continuation of a load only compares wallets. In these runs a load of the first visit is slow, and
      finishes during the third one, whose own load is still to come. */
  function LateLoad(a: string, b: string, g: string, text: string, order: int): seq<Event> {
    SlowStart(a, b) + (Visit(a, b, g, text, order) + [FinishLoad(0), Land(true)])
  }

  function SlowStart(a: string, b: string): seq<Event> {
    SlowEntry(a, b) + SecondEntry()
  }

  function SlowEntry(a: string, b: string): seq<Event> {
    [Hydrate(Some(a)), ReadStore(0, map[]), Hydrate(Some(b)), Hydrate(Some(a))]
  }

  function SecondEntry(): seq<Event> {
    [ReadStore(2, map[]), FinishLoad(2), Land(true)]
  }

  lemma TraceSlowEntry(a: string, b: string) returns (t: seq<State>)
    requires a != b
    ensures Trace(ALL, START, SlowEntry(a, b), t)
    ensures var s := t[4];
      && s.hydrated == Some(a) && s.ready == None && s.nextLoad == 3 && s.session == 3
      && 0 in s.loads && s.loads[0] == Load(a, 1, Some(map[])) && 2 in s.loads && s.loads[2] == Load(a, 3, None)
      && s.durable == map[] && s.cache == map[] && s.queue == []
  {
    var s1 := Step(START, Hydrate(Some(a)));
    var s2 := Step(s1, ReadStore(0, map[]));
    Reentered(s2, a, b);
    var s3 := Step(s2, Hydrate(Some(b)));
    var s4 := Step(s3, Hydrate(Some(a)));
    t := [START, s1, s2, s3, s4];
  }

  lemma TraceSecondEntry(s: State, a: string) returns (t: seq<State>)
    requires s.hydrated == Some(a) && s.nextLoad == 3 && s.session == 3
    requires 0 in s.loads && s.loads[0] == Load(a, 1, Some(map[])) && 2 in s.loads && s.loads[2] == Load(a, 3, None)
    requires s.durable == map[] && s.cache == map[] && s.queue == []
    ensures Trace(ALL, s, SecondEntry(), t)
    ensures var u := t[3];
      && u.hydrated == u.ready == Some(a) && u.nextLoad == 3 && u.session == 3
      && 0 in u.loads && u.loads[0] == Load(a, 1, Some(map[]))
      && u.durable == map[a := map[]] && u.cache == map[] && u.queue == []
  {
    var s1 := Step(s, ReadStore(2, map[]));
    var s2 := Step(s1, FinishLoad(2));
    assert s2.cache == map[] && s2.queue == [Save(a, map[])];
    t := [s, s1, s2, Step(s2, Land(true))];
  }

  lemma TraceLateEnd(care: Care, s: State, a: string, tip: Cache) returns (t: seq<State>)
    requires s.hydrated == Some(a) && s.cache == map[] && s.queue == [] && s.durable == map[a := tip] && !care.current
    requires 0 in s.loads && s.loads[0] == Load(a, 1, Some(map[]))
    ensures Trace(care, s, [FinishLoad(0), Land(true)], t)
    ensures t[1].durable == map[a := tip] && t[2].durable == map[a := map[]]
  {
    EmptyLoadSaved(s, 0, a, tip);
    var s1 := Step(s, FinishLoad(0));
    t := [s, s1, Step(s1, Land(true))];
  }

  lemma LateLoadLosesPreview(a: string, b: string, g: string, text: string, order: int)
    requires a != b && g != ""
    ensures Loses(Care(true, true, false), LateLoad(a, b, g, text, order), a, Tip(g, text, order))
  {
    var care := Care(true, true, false);
    var t0 := TraceSlowEntry(a, b);
    var t1 := TraceSecondEntry(t0[4], a);
    TraceAppend(ALL, START, SlowEntry(a, b), t0, SecondEntry(), t1);
    var t01 := t0 + t1[1..];
    assert t01[7] == t1[3];
    LessCare(care, START, SlowStart(a, b), t01);
    var t2 := TraceVisit(t01[7], a, b, g, text, order);
    LessCare(care, t01[7], Visit(a, b, g, text, order), t2);
    var t3 := TraceLateEnd(care, t2[4], a, Tip(g, text, order));
    JoinedLoses(care, SlowStart(a, b), t01, Visit(a, b, g, text, order), t2, [FinishLoad(0), Land(true)], t3,
                a, Tip(g, text, order));
  }
}
