/** The discovery store: patches deduplicated by checkpoint, and served by cursor paging. */
module Discovery {
  import opened Base
  import JsMap
  import Sorting

  /** `rest` stands for the identifier, sender, sync status and blob id, which are only carried along. */
  datatype Patch = Patch(messageId: string, groupId: string, order: Option<int>, checkpoint: int, rest: string)

  datatype Event = Event(patches: seq<Patch>)

  type Groups = map<string, seq<Patch>>

  function MessageIdOf(p: Patch): string {
    p.messageId
  }

  /** A null order counts as 0. */
  function OrderOf(p: Patch): int {
    if p.order.Some? then p.order.value else 0
  }

  function Lookup(group: seq<Patch>, messageId: string): Option<Patch> {
    if group == [] then None
    else if group[0].messageId == messageId then Some(group[0])
    else Lookup(group[1..], messageId)
  }

  function GroupAt(groups: Groups, groupId: string): seq<Patch> {
    if groupId in groups then groups[groupId] else []
  }

  /** One patch: kept unless its message is known with a checkpoint at least as great. */
  function AddPatch(groups: Groups, p: Patch): Groups {
    var group := GroupAt(groups, p.groupId);
    var existing := Lookup(group, p.messageId);
    if existing.Some? && p.checkpoint <= existing.value.checkpoint then groups
    else groups[p.groupId := JsMap.Put(MessageIdOf, group, p)]
  }

  function AddAll(groups: Groups, ps: seq<Patch>): Groups {
    if ps == [] then groups else AddPatch(AddAll(groups, ps[..|ps| - 1]), ps[|ps| - 1])
  }

  // --------------------------------------------------------------------- paging

  function ByOrder(): (Patch, Patch) -> bool {
    (a: Patch, b: Patch) => OrderOf(a) <= OrderOf(b)
  }

  function Above(s: seq<Patch>, order: int): seq<Patch> {
    if s == [] then []
    else if OrderOf(s[0]) > order then [s[0]] + Above(s[1..], order)
    else Above(s[1..], order)
  }

  function BelowOrder(s: seq<Patch>, order: int): seq<Patch> {
    if s == [] then []
    else if OrderOf(s[0]) < order then [s[0]] + BelowOrder(s[1..], order)
    else BelowOrder(s[1..], order)
  }

  /** `slice(0, n)`: a negative end counts from the back. */
  function Slice(s: seq<Patch>, n: int): seq<Patch> {
    if n >= |s| then s else if n >= 0 then s[..n] else if |s| + n >= 0 then s[..|s| + n] else []
  }

  datatype Page = Page(patches: seq<Patch>, hasMore: bool)

  datatype Options = Options(limit: Option<int>, afterOrder: Option<int>, beforeOrder: Option<int>)

  function PageOf(groups: Groups, groupId: string, options: Options): Page {
    if groupId !in groups then Page([], false)
    else
      var limit := if options.limit.Some? then options.limit.value else 50;
      var sorted := Sorting.Sort(ByOrder(), groups[groupId]);
      var after := if options.afterOrder.Some? then Above(sorted, options.afterOrder.value) else sorted;
      var patches := if options.beforeOrder.Some? then BelowOrder(after, options.beforeOrder.value) else after;
      Page(Slice(patches, limit), |patches| > limit)
  }

  datatype Stats = Stats(totalGroups: nat, totalPatches: nat, lastCheckpoint: int)

  /** The (group, message) pairs in the store. */
  ghost function Pairs(groups: Groups, among: set<string>): set<(string, string)> {
    set g, p | g in among && g in groups && p in groups[g] :: (g, p.messageId)
  }

  class InMemoryDiscoveryStore {
    var groups: Groups
    var lastCheckpoint: int
    ghost var arrivals: seq<Patch>  // every patch that was ever added, in order

    ghost predicate Valid()
      reads this
    {
      StoreOk(groups) && groups == AddAll(map[], arrivals)
    }

    constructor ()
      ensures Valid() && groups == map[] && lastCheckpoint == 0 && arrivals == []
    {
      groups, lastCheckpoint, arrivals := map[], 0, [];
    }

    method AddDiscovery(event: Event)
      requires Valid()
      modifies this`groups, this`arrivals
      ensures Valid() && groups == AddAll(old(groups), event.patches)
      ensures arrivals == old(arrivals) + event.patches
    {
      for i := 0 to |event.patches|
        invariant groups == AddAll(old(groups), event.patches[..i]) && arrivals == old(arrivals)
      {
        assert event.patches[..i + 1][..i] == event.patches[..i];
        AddOne(event.patches[i]);
      }
      assert event.patches[..|event.patches|] == event.patches;
      AddAllKeepsOk(old(groups), event.patches);
      AddAllAppend(map[], arrivals, event.patches);
      arrivals := arrivals + event.patches;
    }

    method AddOne(patch: Patch)
      modifies this`groups
      ensures groups == AddPatch(old(groups), patch)
    {
      if patch.groupId !in groups {
        groups := groups[patch.groupId := []];
      }
      var group := groups[patch.groupId];
      var existing := Lookup(group, patch.messageId);
      if existing.Some? {
        if patch.checkpoint > existing.value.checkpoint {
          groups := groups[patch.groupId := JsMap.Put(MessageIdOf, group, patch)];
        }
      } else {
        groups := groups[patch.groupId := JsMap.Put(MessageIdOf, group, patch)];
      }
      assert groups == AddPatch(old(groups), patch);
    }

    /** The page, in terms of all patches that ever arrived. */
    function GetByGroup(groupId: string, options: Options): (page: Page)
      requires Valid()
      reads this
      ensures IsPage(arrivals, groupId, options, page)
    {
      PageOfArrivals(arrivals, groupId, options);
      PageOf(groups, groupId, options)
    }

    method SetLastCheckpoint(checkpoint: int)
      modifies this`lastCheckpoint
      ensures lastCheckpoint == checkpoint
    {
      lastCheckpoint := checkpoint;
    }

    /** The totals count the groups and the distinct (group, message) pairs. */
    method GetStats() returns (stats: Stats)
      requires Valid()
      ensures stats == Stats(|groups|, |Pairs(groups, groups.Keys)|, lastCheckpoint)
    {
      var total := 0;
      var rest := groups.Keys;
      assert Pairs(groups, {}) == {};
      while rest != {}
        invariant rest <= groups.Keys
        invariant total == |Pairs(groups, groups.Keys - rest)|
        decreases |rest|
      {
        ghost var some := Pick(rest);
        var g :| g in rest;
        PairsStep(groups, groups.Keys - rest, g);
        total := total + |groups[g]|;
        assert groups.Keys - rest + {g} == groups.Keys - (rest - {g});
        rest := rest - {g};
      }
      assert groups.Keys - {} == groups.Keys;
      return Stats(|groups|, total, lastCheckpoint);
    }
  }

  // -------------------------------------------------------------- the invariant

  /** Groups are not empty, hold one patch per message, and only patches of their own. */
  ghost predicate StoreOk(groups: Groups) {
    forall g :: g in groups ==>
      && groups[g] != []
      && JsMap.Unique(MessageIdOf, groups[g])
      && forall p :: p in groups[g] ==> p.groupId == g
  }

  lemma {:induction false} LookupFacts(group: seq<Patch>, messageId: string)
    requires JsMap.Unique(MessageIdOf, group)
    ensures forall p :: Lookup(group, messageId) == Some(p) <==> p in group && p.messageId == messageId
  {
    if group != [] {
      LookupFacts(group[1..], messageId);
      assert group == [group[0]] + group[1..];
      assert forall p :: p in group[1..] ==> MessageIdOf(p) != MessageIdOf(group[0]);
    }
  }

  lemma {:induction false} AddAllAppend(groups: Groups, a: seq<Patch>, b: seq<Patch>)
    ensures AddAll(AddAll(groups, a), b) == AddAll(groups, a + b)
  {
    if b == [] {
      assert a + b == a;
    } else {
      AddAllAppend(groups, a, b[..|b| - 1]);
      assert (a + b)[..|a + b| - 1] == a + b[..|b| - 1];
    }
  }

  lemma AddPatchKeepsOk(groups: Groups, p: Patch)
    requires StoreOk(groups)
    ensures StoreOk(AddPatch(groups, p))
  {
    var group := GroupAt(groups, p.groupId);
    JsMap.PutFacts(MessageIdOf, group, p);
    assert p in JsMap.Put(MessageIdOf, group, p);
  }

  lemma {:induction false} AddAllKeepsOk(groups: Groups, ps: seq<Patch>)
    requires StoreOk(groups)
    ensures StoreOk(AddAll(groups, ps))
  {
    if ps != [] {
      AddAllKeepsOk(groups, ps[..|ps| - 1]);
      AddPatchKeepsOk(AddAll(groups, ps[..|ps| - 1]), ps[|ps| - 1]);
    }
  }

  lemma {:induction false} IdSetSize(s: seq<Patch>, g: string)
    requires JsMap.Unique(MessageIdOf, s)
    ensures |set p | p in s :: (g, p.messageId)| == |s|
  {
    var all := set p | p in s :: (g, p.messageId);
    if s == [] {
      assert all == {};
    } else {
      IdSetSize(s[1..], g);
      var rest := set p | p in s[1..] :: (g, p.messageId);
      assert s == [s[0]] + s[1..];
      assert all == rest + {(g, s[0].messageId)};
      assert (g, s[0].messageId) !in rest by {
        assert forall p :: p in s[1..] ==> MessageIdOf(p) != MessageIdOf(s[0]);
      }
    }
  }

  lemma PairsStep(groups: Groups, done: set<string>, g: string)
    requires StoreOk(groups) && g in groups && g !in done
    ensures |Pairs(groups, done + {g})| == |Pairs(groups, done)| + |groups[g]|
  {
    var new_ := set p | p in groups[g] :: (g, p.messageId);
    IdSetSize(groups[g], g);
    assert Pairs(groups, done + {g}) == Pairs(groups, done) + new_;
    assert Pairs(groups, done) !! new_;
  }

  // -------------------------------------------------------------- convergence

  predicate SameKey(p: Patch, q: Patch) {
    p.groupId == q.groupId && p.messageId == q.messageId
  }

  /** Among all arrivals for its message, x is the first with the greatest checkpoint. */
  ghost predicate Wins(arrivals: seq<Patch>, x: Patch) {
    exists i :: 0 <= i < |arrivals| && WinsAt(arrivals, x, i)
  }

  ghost predicate WinsAt(arrivals: seq<Patch>, x: Patch, i: nat)
    requires i < |arrivals|
  {
    && arrivals[i] == x
    && (forall j :: 0 <= j < |arrivals| && SameKey(arrivals[j], x) ==> arrivals[j].checkpoint <= x.checkpoint)
    && (forall j :: 0 <= j < i && SameKey(arrivals[j], x) ==> arrivals[j].checkpoint < x.checkpoint)
  }

  ghost predicate Stored(groups: Groups, x: Patch) {
    x in GroupAt(groups, x.groupId)
  }

  lemma AddPatchMeaning(groups: Groups, p: Patch, x: Patch)
    requires StoreOk(groups)
    ensures var old_ := Lookup(GroupAt(groups, p.groupId), p.messageId);
      Stored(AddPatch(groups, p), x) <==>
        if SameKey(p, x) then
          (if old_.Some? && p.checkpoint <= old_.value.checkpoint then old_ == Some(x) else x == p)
        else Stored(groups, x)
  {
    var group := GroupAt(groups, p.groupId);
    LookupFacts(group, p.messageId);
    JsMap.PutFacts(MessageIdOf, group, p);
  }

  lemma WinsSnoc(arrivals: seq<Patch>, p: Patch, x: Patch)
    ensures Wins(arrivals + [p], x) <==>
      if SameKey(p, x) then
        || (Wins(arrivals, x) && p.checkpoint <= x.checkpoint)
        || (x == p && forall j :: 0 <= j < |arrivals| && SameKey(arrivals[j], x) ==> arrivals[j].checkpoint < p.checkpoint)
      else Wins(arrivals, x)
  {
    var all := arrivals + [p];
    var n := |arrivals|;
    assert forall j :: 0 <= j < n ==> all[j] == arrivals[j];
    assert all[n] == p;
    if Wins(all, x) {
      var i :| 0 <= i < |all| && WinsAt(all, x, i);
      if i < n {
        forall j | 0 <= j < n && SameKey(arrivals[j], x) ensures arrivals[j].checkpoint <= x.checkpoint {
          assert SameKey(all[j], x);
        }
        forall j | 0 <= j < i && SameKey(arrivals[j], x) ensures arrivals[j].checkpoint < x.checkpoint {
          assert SameKey(all[j], x);
        }
        assert WinsAt(arrivals, x, i);
      } else {
        forall j | 0 <= j < n && SameKey(arrivals[j], x) ensures arrivals[j].checkpoint < p.checkpoint {
          assert SameKey(all[j], x);
        }
      }
    }
    if Wins(arrivals, x) && (SameKey(p, x) ==> p.checkpoint <= x.checkpoint) {
      var i :| 0 <= i < n && WinsAt(arrivals, x, i);
      assert WinsAt(all, x, i);
    }
    if x == p && forall j :: 0 <= j < n && SameKey(arrivals[j], x) ==> arrivals[j].checkpoint < p.checkpoint {
      assert WinsAt(all, x, n);
    }
  }

  /** There is one winner per message. */
  lemma WinnerUnique(arrivals: seq<Patch>, x: Patch, y: Patch)
    requires Wins(arrivals, x) && Wins(arrivals, y) && SameKey(x, y)
    ensures x == y
  {
    var i :| 0 <= i < |arrivals| && WinsAt(arrivals, x, i);
    var j :| 0 <= j < |arrivals| && WinsAt(arrivals, y, j);
    assert SameKey(arrivals[i], y) && SameKey(arrivals[j], x);
  }

  /** Every message that arrived has a winner. */
  lemma {:induction false} WinnerExists(arrivals: seq<Patch>, p: Patch) returns (x: Patch)
    requires p in arrivals
    ensures Wins(arrivals, x) && SameKey(x, p) && p.checkpoint <= x.checkpoint
  {
    var n := |arrivals| - 1;
    var front, last := arrivals[..n], arrivals[n];
    assert arrivals == front + [last];
    if exists q :: q in front && SameKey(q, p) {
      var q :| q in front && SameKey(q, p);
      var k := if p in front then p else q;
      x := WinnerExists(front, k);
      var w := x;
      var i :| 0 <= i < |front| && WinsAt(front, w, i);
      if SameKey(last, p) && last.checkpoint > w.checkpoint {
        x := last;
        WinsSnoc(front, last, last);
      } else {
        WinsSnoc(front, last, w);
      }
    } else {
      x := last;
      WinsSnoc(front, last, last);
    }
  }

  /** Each entry of the store is the first-arrived patch among those with the greatest checkpoint. */
  lemma {:induction false} EntryIsWinner(arrivals: seq<Patch>, x: Patch)
    ensures Stored(AddAll(map[], arrivals), x) <==> Wins(arrivals, x)
    decreases |arrivals|, 0
  {
    AddAllKeepsOk(map[], arrivals);
    if arrivals != [] {
      var n := |arrivals| - 1;
      var front, p := arrivals[..n], arrivals[n];
      var before := AddAll(map[], front);
      assert arrivals == front + [p];
      AddAllKeepsOk(map[], front);
      EntryIsWinner(front, x);
      AddPatchMeaning(before, p, x);
      WinsSnoc(front, p, x);
      if SameKey(p, x) {
        var old_ := Lookup(GroupAt(before, p.groupId), p.messageId);
        LookupFacts(GroupAt(before, p.groupId), p.messageId);
        OldEntry(front, p, old_);
        BeatenExactly(front, p, old_);
      }
    }
  }

  lemma OldEntry(front: seq<Patch>, p: Patch, entry: Option<Patch>)
    requires entry == Lookup(GroupAt(AddAll(map[], front), p.groupId), p.messageId)
    ensures forall x :: entry == Some(x) <==> Wins(front, x) && SameKey(x, p)
    decreases |front|, 1
  {
    var before := AddAll(map[], front);
    AddAllKeepsOk(map[], front);
    LookupFacts(GroupAt(before, p.groupId), p.messageId);
    forall x ensures entry == Some(x) <==> Wins(front, x) && SameKey(x, p) {
      EntryIsWinner(front, x);
    }
  }

  /** The entry of a message beats a newcomer exactly when some earlier arrival does. */
  lemma BeatenExactly(front: seq<Patch>, p: Patch, entry: Option<Patch>)
    requires forall x :: entry == Some(x) <==> Wins(front, x) && SameKey(x, p)
    ensures entry.Some? && p.checkpoint <= entry.value.checkpoint <==>
      exists j :: 0 <= j < |front| && SameKey(front[j], p) && p.checkpoint <= front[j].checkpoint
  {
    if j :| 0 <= j < |front| && SameKey(front[j], p) && p.checkpoint <= front[j].checkpoint {
      var w := WinnerExists(front, front[j]);
      assert entry == Some(w);
    }
    if entry.Some? {
      var i :| 0 <= i < |front| && WinsAt(front, entry.value, i);
      assert SameKey(front[i], p);
    }
  }

  // ----------------------------------------------------- order of arrival does not matter

  /** Equal-checkpoint copies agree: where the greatest checkpoint of a message is reached twice,
      it is by the same patch. */
  ghost predicate CopiesAgree(arrivals: seq<Patch>) {
    forall x, y | x in arrivals && y in arrivals && SameKey(x, y) ::
      x.checkpoint == y.checkpoint && Greatest(arrivals, x) ==> x == y
  }

  ghost predicate Greatest(arrivals: seq<Patch>, x: Patch) {
    forall y :: y in arrivals && SameKey(y, x) ==> y.checkpoint <= x.checkpoint
  }

  /** The two stores hold the same entry for every message. */
  ghost predicate SameEntries(a: seq<Patch>, b: seq<Patch>) {
    forall x :: Stored(AddAll(map[], a), x) <==> Stored(AddAll(map[], b), x)
  }

  ghost predicate Reordered(a: seq<Patch>, b: seq<Patch>) {
    multiset(a) == multiset(b)
  }

  lemma WinnerIsGreatest(arrivals: seq<Patch>, x: Patch)
    requires Wins(arrivals, x)
    ensures x in arrivals && Greatest(arrivals, x)
  {
  }

  /** The same patches, with any repetition and in any order, give the same entries. */
  lemma SamePatchesConverge(a: seq<Patch>, b: seq<Patch>)
    requires CopiesAgree(a) && forall x :: x in a <==> x in b
    ensures SameEntries(a, b)
  {
    forall x ensures Stored(AddAll(map[], a), x) <==> Stored(AddAll(map[], b), x) {
      EntryIsWinner(a, x);
      EntryIsWinner(b, x);
      if Wins(a, x) {
        WinnerIsGreatest(a, x);
        var w := WinnerExists(b, x);
        WinnerIsGreatest(b, w);
        assert w == x;
      }
      if Wins(b, x) {
        WinnerIsGreatest(b, x);
        var w := WinnerExists(a, x);
        WinnerIsGreatest(a, w);
        assert w == x;
      }
    }
  }

  /** Any two orders of arrival give the same entries exactly when equal-checkpoint copies agree. */
  lemma OrderIrrelevantExactly(a: seq<Patch>)
    ensures (forall b :: Reordered(a, b) ==> SameEntries(a, b)) <==> CopiesAgree(a)
  {
    if CopiesAgree(a) {
      forall b | Reordered(a, b) ensures SameEntries(a, b) {
        forall x ensures x in a <==> x in b {
          assert x in a <==> x in multiset(a);
          assert x in b <==> x in multiset(b);
        }
        SamePatchesConverge(a, b);
      }
    } else {
      var x, y :| x in a && y in a && SameKey(x, y) && x.checkpoint == y.checkpoint && Greatest(a, x) && x != y;
      var p := ArriveFirst(a, x);
      var q := ArriveFirst(a, y);
      EntryIsWinner(p, x);
      EntryIsWinner(q, y);
      EntryIsWinner(a, x);
      EntryIsWinner(a, y);
      if SameEntries(a, p) && SameEntries(a, q) {
        assert Stored(AddAll(map[], a), x) && Stored(AddAll(map[], a), y);
        WinnerUnique(a, x, y);
      }
    }
  }

  /** A patch with the greatest checkpoint that arrives before all others wins. */
  lemma ArriveFirst(a: seq<Patch>, x: Patch) returns (b: seq<Patch>)
    requires x in a && Greatest(a, x)
    ensures Reordered(a, b) && Wins(b, x)
  {
    var i :| 0 <= i < |a| && a[i] == x;
    b := [x] + (a[..i] + a[i + 1..]);
    assert a == a[..i] + ([x] + a[i + 1..]);
    forall j | 0 <= j < |b| ensures b[j] in a {
      assert b[j] in multiset(b) && multiset(b) == multiset(a);
    }
    assert WinsAt(b, x, 0);
  }

  /** The patches of a history of discovery events. */
  function PatchesOf(events: seq<Event>): seq<Patch> {
    if events == [] then [] else events[0].patches + PatchesOf(events[1..])
  }

  lemma {:induction false} PatchesOfMember(events: seq<Event>, x: Patch)
    ensures x in PatchesOf(events) <==> exists e :: e in events && x in e.patches
  {
    if events != [] {
      PatchesOfMember(events[1..], x);
      assert events == [events[0]] + events[1..];
    }
  }

  /** Inspections may finish in any order, and a blob may be inspected more than once. */
  lemma EventsConverge(a: seq<Event>, b: seq<Event>)
    requires forall e :: e in a <==> e in b
    requires CopiesAgree(PatchesOf(a))
    ensures SameEntries(PatchesOf(a), PatchesOf(b))
  {
    forall x ensures x in PatchesOf(a) <==> x in PatchesOf(b) {
      PatchesOfMember(a, x);
      PatchesOfMember(b, x);
    }
    SamePatchesConverge(PatchesOf(a), PatchesOf(b));
  }

  /** The statistics count the distinct groups and (group, message) pairs that ever arrived. */
  lemma StatsCountArrivals(arrivals: seq<Patch>)
    ensures var groups := AddAll(map[], arrivals);
      && groups.Keys == (set p | p in arrivals :: p.groupId)
      && Pairs(groups, groups.Keys) == (set p | p in arrivals :: (p.groupId, p.messageId))
  {
    var groups := AddAll(map[], arrivals);
    AddAllKeepsOk(map[], arrivals);
    forall p | p in arrivals
      ensures p.groupId in groups && (p.groupId, p.messageId) in Pairs(groups, groups.Keys)
    {
      var w := WinnerExists(arrivals, p);
      EntryIsWinner(arrivals, w);
    }
    forall g, p | g in groups && p in groups[g] ensures p in arrivals && p.groupId == g {
      EntryIsWinner(arrivals, p);
      assert Stored(groups, p);
    }
    forall g | g in groups ensures exists p :: p in arrivals && p.groupId == g {
      assert groups[g][0] in groups[g];
    }
  }

  // ------------------------------------------------------------------ what a page is

  predicate InRange(p: Patch, options: Options) {
    var order := if p.order == None then 0 else p.order.value;
    && (options.afterOrder.Some? ==> order > options.afterOrder.value)
    && (options.beforeOrder.Some? ==> order < options.beforeOrder.value)
  }

  /** Everything between the two cursors, in ascending order. */
  function Matching(groups: Groups, groupId: string, options: Options): seq<Patch> {
    var sorted := Sorting.Sort(ByOrder(), GroupAt(groups, groupId));
    var after := if options.afterOrder.Some? then Above(sorted, options.afterOrder.value) else sorted;
    if options.beforeOrder.Some? then BelowOrder(after, options.beforeOrder.value) else after
  }

  lemma {:induction false} BelowOrderFacts(s: seq<Patch>, order: int)
    ensures forall p :: p in BelowOrder(s, order) <==> p in s && OrderOf(p) < order
    ensures OrderSorted(s) ==> OrderSorted(BelowOrder(s, order))
  {
    if s != [] {
      BelowOrderFacts(s[1..], order);
      assert s == [s[0]] + s[1..];
      var rest := BelowOrder(s[1..], order);
      assert forall j :: 0 <= j < |rest| ==> rest[j] in s[1..];
    }
  }

  /** A page holds the lowest patches between the cursors: up to the limit (50 unless given), or all but
      the last few when the limit is negative. It says whether there are more than the limit. */
  lemma PageMeaning(groups: Groups, groupId: string, options: Options)
    ensures var limit := if options.limit.Some? then options.limit.value else 50;
      var page, all := PageOf(groups, groupId, options), Matching(groups, groupId, options);
      && (forall p :: p in all <==> p in GroupAt(groups, groupId) && InRange(p, options))
      && OrderSorted(all)
      && page.patches <= all
      && |page.patches| == (if limit < 0 then (if |all| + limit < 0 then 0 else |all| + limit)
                            else if |all| < limit then |all| else limit)
      && (limit >= 0 ==> (page.hasMore <==> |page.patches| < |all|))
      && (limit < 0 ==> (page.hasMore <==> groupId in groups))
  {
    var sorted := Sorting.Sort(ByOrder(), GroupAt(groups, groupId));
    LeftSorted(groups, groupId, options.afterOrder);
    Sorting.SortContents(ByOrder(), GroupAt(groups, groupId));
    if options.afterOrder.Some? {
      AboveMembers(sorted, options.afterOrder.value);
    }
    var after := Left(groups, groupId, options.afterOrder);
    if options.beforeOrder.Some? {
      BelowOrderFacts(after, options.beforeOrder.value);
    }
  }

  function LimitOf(options: Options): int {
    if options.limit.Some? then options.limit.value else 50
  }

  /** The patch is the one kept for its message, is of the group, and stands between the cursors. */
  ghost predicate Offered(arrivals: seq<Patch>, groupId: string, options: Options, p: Patch) {
    Wins(arrivals, p) && p.groupId == groupId && InRange(p, options)
  }

  /** Only offered patches, in ascending order; when the limit is not negative, up to the limit of them, none of
      higher order than an offered one that is left out, and told whether any is left out. */
  ghost predicate IsPage(arrivals: seq<Patch>, groupId: string, options: Options, page: Page) {
    && (forall p :: p in page.patches ==> Offered(arrivals, groupId, options, p))
    && OrderSorted(page.patches)
    && (LimitOf(options) >= 0 ==>
          && |page.patches| <= LimitOf(options)
          && (forall p, q :: p in page.patches && q !in page.patches && Offered(arrivals, groupId, options, q)
                ==> OrderOf(p) <= OrderOf(q))
          && (page.hasMore <==> exists q :: q !in page.patches && Offered(arrivals, groupId, options, q)))
  }

  lemma OfferedIsMatching(arrivals: seq<Patch>, groupId: string, options: Options, p: Patch)
    ensures Offered(arrivals, groupId, options, p) <==> p in Matching(AddAll(map[], arrivals), groupId, options)
  {
    var groups := AddAll(map[], arrivals);
    AddAllKeepsOk(map[], arrivals);
    EntryIsWinner(arrivals, p);
    PageMeaning(groups, groupId, Options(Some(0), options.afterOrder, options.beforeOrder));
    assert Matching(groups, groupId, options)
      == Matching(groups, groupId, Options(Some(0), options.afterOrder, options.beforeOrder));
    assert p in GroupAt(groups, groupId) ==> p.groupId == groupId;
  }

  /** A page in terms of the arrivals: the offered patches of lowest order, up to the limit. */
  lemma PageOfArrivals(arrivals: seq<Patch>, groupId: string, options: Options)
    ensures IsPage(arrivals, groupId, options, PageOf(AddAll(map[], arrivals), groupId, options))
  {
    var groups := AddAll(map[], arrivals);
    var page, all := PageOf(groups, groupId, options), Matching(groups, groupId, options);
    PageMeaning(groups, groupId, options);
    MatchingUnique(arrivals, groupId, options);
    forall p ensures Offered(arrivals, groupId, options, p) <==> p in all {
      OfferedIsMatching(arrivals, groupId, options, p);
    }
    FrontOfList(all, page.patches);
  }

  ghost predicate NoneTwice(s: seq<Patch>) {
    forall i, j :: 0 <= i < j < |s| ==> s[i] != s[j]
  }

  /** The front of a list that stands in order and has no patch twice. */
  lemma FrontOfList(all: seq<Patch>, front: seq<Patch>)
    requires front <= all && OrderSorted(all) && NoneTwice(all)
    ensures OrderSorted(front) && forall p :: p in front ==> p in all
    ensures forall p, q :: p in front && q !in front && q in all ==> OrderOf(p) <= OrderOf(q)
    ensures |front| < |all| <==> exists q :: q !in front && q in all
  {
    assert front == all[..|front|];
    forall p, q | p in front && q !in front && q in all ensures OrderOf(p) <= OrderOf(q) {
      var i :| 0 <= i < |front| && front[i] == p;
      var j :| 0 <= j < |all| && all[j] == q;
      assert j >= |front|;
    }
    if |front| < |all| {
      assert all[|front|] in all && all[|front|] !in front;
    }
    if exists q :: q !in front && q in all {
      var q :| q !in front && q in all;
      assert front != all;
    }
  }

  lemma MatchingUnique(arrivals: seq<Patch>, groupId: string, options: Options)
    ensures NoneTwice(Matching(AddAll(map[], arrivals), groupId, options))
  {
    var group := GroupAt(AddAll(map[], arrivals), groupId);
    AddAllKeepsOk(map[], arrivals);
    Sorting.SortContents(ByOrder(), group);
    var sorted := Sorting.Sort(ByOrder(), group);
    JsMap.Rearranged(MessageIdOf, group, sorted);
    var after := if options.afterOrder.Some? then Above(sorted, options.afterOrder.value) else sorted;
    if options.afterOrder.Some? {
      AboveUnique(sorted, options.afterOrder.value);
    }
    if options.beforeOrder.Some? {
      BelowUnique(after, options.beforeOrder.value);
    }
    var all := Matching(AddAll(map[], arrivals), groupId, options);
    forall i, j | 0 <= i < j < |all| ensures all[i] != all[j] {
      assert MessageIdOf(all[i]) != MessageIdOf(all[j]);
    }
  }

  lemma {:induction false} AboveUnique(s: seq<Patch>, order: int)
    requires JsMap.Unique(MessageIdOf, s)
    ensures JsMap.Unique(MessageIdOf, Above(s, order))
  {
    if s != [] {
      AboveUnique(s[1..], order);
      AboveMembers(s[1..], order);
      var rest := Above(s[1..], order);
      forall j | 0 <= j < |rest| ensures MessageIdOf(s[0]) != MessageIdOf(rest[j]) {
        assert rest[j] in s[1..];
      }
    }
  }

  lemma {:induction false} BelowUnique(s: seq<Patch>, order: int)
    requires JsMap.Unique(MessageIdOf, s)
    ensures JsMap.Unique(MessageIdOf, BelowOrder(s, order))
  {
    if s != [] {
      BelowUnique(s[1..], order);
      BelowOrderFacts(s[1..], order);
      var rest := BelowOrder(s[1..], order);
      forall j | 0 <= j < |rest| ensures MessageIdOf(s[0]) != MessageIdOf(rest[j]) {
        assert rest[j] in s[1..];
      }
    }
  }

  // ------------------------------------------------------------- the forward walk

  /** Page after page, each from the last order returned, until there is no more. */
  function Walk(groups: Groups, groupId: string, limit: int, after: Option<int>): seq<Patch>
    requires limit >= 1
    decreases if after.Some? then |Above(Sorting.Sort(ByOrder(), GroupAt(groups, groupId)), after.value)|
              else |GroupAt(groups, groupId)| + 1
  {
    var page := PageOf(groups, groupId, Options(Some(limit), after, None));
    if !page.hasMore then page.patches
    else
      var last := OrderOf(page.patches[limit - 1]);
      WalkShrinks(groups, groupId, limit, after);
      page.patches + Walk(groups, groupId, limit, Some(last))
  }

  /** What is left to walk. */
  function Left(groups: Groups, groupId: string, after: Option<int>): seq<Patch> {
    var sorted := Sorting.Sort(ByOrder(), GroupAt(groups, groupId));
    if after.Some? then Above(sorted, after.value) else sorted
  }

  lemma WalkShrinks(groups: Groups, groupId: string, limit: int, after: Option<int>)
    requires limit >= 1 && |Left(groups, groupId, after)| > limit
    ensures var left := Left(groups, groupId, after);
      var sorted := Sorting.Sort(ByOrder(), GroupAt(groups, groupId));
      && Above(sorted, OrderOf(left[limit - 1])) == Above(left, OrderOf(left[limit - 1]))
      && |Above(left, OrderOf(left[limit - 1]))| <= |left| - limit
      && |left| <= |GroupAt(groups, groupId)|
  {
    var sorted := Sorting.Sort(ByOrder(), GroupAt(groups, groupId));
    Sorting.SortContents(ByOrder(), GroupAt(groups, groupId));
    LeftSorted(groups, groupId, after);
    var left := Left(groups, groupId, after);
    var last := OrderOf(left[limit - 1]);
    if after.Some? {
      AboveMembers(sorted, after.value);
      assert left[limit - 1] in left;
      AboveTwice(sorted, after.value, last);
      AboveShorter(sorted, after.value);
    }
    AboveOfSorted(left, limit);
  }

  /** Ascending by order. */
  ghost predicate OrderSorted(s: seq<Patch>) {
    forall i, j :: 0 <= i < j < |s| ==> OrderOf(s[i]) <= OrderOf(s[j])
  }

  lemma LeftSorted(groups: Groups, groupId: string, after: Option<int>)
    ensures OrderSorted(Left(groups, groupId, after))
  {
    assert Sorting.Preorder(ByOrder());
    Sorting.SortSorted(ByOrder(), GroupAt(groups, groupId));
    if after.Some? {
      AboveSorted(Sorting.Sort(ByOrder(), GroupAt(groups, groupId)), after.value);
    }
  }

  lemma {:induction false} AboveMembers(s: seq<Patch>, order: int)
    ensures forall p :: p in Above(s, order) <==> p in s && OrderOf(p) > order
  {
    if s != [] {
      AboveMembers(s[1..], order);
      assert s == [s[0]] + s[1..];
    }
  }

  lemma {:induction false} AboveShorter(s: seq<Patch>, order: int)
    ensures |Above(s, order)| <= |s|
  {
    if s != [] {
      AboveShorter(s[1..], order);
    }
  }

  lemma {:induction false} AboveSorted(s: seq<Patch>, order: int)
    requires OrderSorted(s)
    ensures OrderSorted(Above(s, order))
  {
    if s != [] {
      AboveSorted(s[1..], order);
      AboveMembers(s[1..], order);
      var rest := Above(s[1..], order);
      forall j | 0 <= j < |rest| ensures ByOrder()(s[0], rest[j]) {
        assert rest[j] in s[1..];
      }
    }
  }

  lemma {:induction false} AboveTwice(s: seq<Patch>, a: int, b: int)
    requires a <= b
    ensures Above(Above(s, a), b) == Above(s, b)
  {
    if s != [] {
      AboveTwice(s[1..], a, b);
      if OrderOf(s[0]) > a {
        assert Above(s, a)[1..] == Above(s[1..], a);
      }
    }
  }

  /** Filtering a sorted list above the order of its n-th element leaves at most the elements behind
      it, and all of these exactly when the next one has a greater order. */
  lemma {:induction false} AboveOfSorted(s: seq<Patch>, n: nat)
    requires OrderSorted(s) && 1 <= n < |s|
    ensures |Above(s, OrderOf(s[n - 1]))| <= |s| - n
    ensures OrderOf(s[n - 1]) < OrderOf(s[n]) ==> Above(s, OrderOf(s[n - 1])) == s[n..]
    ensures OrderOf(s[n - 1]) >= OrderOf(s[n]) ==> |Above(s, OrderOf(s[n - 1]))| < |s| - n
  {
    var order := OrderOf(s[n - 1]);
    AboveSkips(s, order, n);
    AboveShorter(s[n..], order);
    if order < OrderOf(s[n]) {
      assert forall j :: n <= j < |s| ==> ByOrder()(s[n], s[j]) || j == n;
      AboveAll(s[n..], order);
    } else {
      AboveShorter(s[n..][1..], order);
    }
  }

  lemma {:induction false} AboveSkips(s: seq<Patch>, order: int, n: nat)
    requires OrderSorted(s) && n <= |s| && (n > 0 ==> OrderOf(s[n - 1]) <= order)
    ensures Above(s, order) == Above(s[n..], order)
  {
    if n > 0 {
      assert n > 1 ==> ByOrder()(s[0], s[n - 1]);
      AboveSkips(s[1..], order, n - 1);
      assert s[1..][n - 1..] == s[n..];
    } else {
      assert s[0..] == s;
    }
  }

  lemma {:induction false} AboveAll(s: seq<Patch>, order: int)
    requires forall j :: 0 <= j < |s| ==> OrderOf(s[j]) > order
    ensures Above(s, order) == s
  {
    if s != [] {
      AboveAll(s[1..], order);
    }
  }

  /** No page boundary of the walk falls between two patches of equal order. */
  predicate CleanCuts(s: seq<Patch>, limit: int)
    requires limit >= 1
    decreases |s|
  {
    |s| <= limit || (OrderOf(s[limit - 1]) < OrderOf(s[limit]) && CleanCuts(s[limit..], limit))
  }

  /** One page, then the walk over what is above its last order. */
  lemma WalkStep(groups: Groups, groupId: string, limit: int, after: Option<int>)
    requires limit >= 1
    ensures var left := Left(groups, groupId, after);
      if |left| <= limit then Walk(groups, groupId, limit, after) == left
      else
        var last := OrderOf(left[limit - 1]);
        Walk(groups, groupId, limit, after) == left[..limit] + Walk(groups, groupId, limit, Some(last))
        && Left(groups, groupId, Some(last)) == Above(left, last)
  {
    var left := Left(groups, groupId, after);
    if |left| > limit {
      WalkShrinks(groups, groupId, limit, after);
    }
  }

  lemma {:induction false} WalkFrom(groups: Groups, groupId: string, limit: int, after: Option<int>)
    requires limit >= 1
    ensures var left := Left(groups, groupId, after);
      && |Walk(groups, groupId, limit, after)| <= |left|
      && (Walk(groups, groupId, limit, after) == left <==> CleanCuts(left, limit))
    decreases |Left(groups, groupId, after)|
  {
    var left := Left(groups, groupId, after);
    WalkStep(groups, groupId, limit, after);
    if |left| > limit {
      var last := OrderOf(left[limit - 1]);
      LeftSorted(groups, groupId, after);
      AboveOfSorted(left, limit);
      WalkFrom(groups, groupId, limit, Some(last));
      CutHere(left, limit, Walk(groups, groupId, limit, Some(last)));
    }
  }

  /** A walk that is right behind the first page is right from its start exactly when the cut is clean. */
  lemma CutHere(left: seq<Patch>, limit: int, rest: seq<Patch>)
    requires 1 <= limit < |left| && OrderSorted(left)
    requires var above := Above(left, OrderOf(left[limit - 1]));
      |rest| <= |above| && (rest == above <==> CleanCuts(above, limit))
    ensures |left[..limit] + rest| <= |left|
    ensures left[..limit] + rest == left <==> CleanCuts(left, limit)
  {
    AboveOfSorted(left, limit);
    assert left == left[..limit] + left[limit..];
    assert (left[..limit] + rest)[limit..] == rest;
  }

  /** The forward walk terminates and yields every patch of the group in order, exactly when no page
      boundary falls between patches of equal order; otherwise it yields fewer. */
  lemma WalkExactly(groups: Groups, groupId: string, limit: int)
    requires limit >= 1
    ensures var sorted := Sorting.Sort(ByOrder(), GroupAt(groups, groupId));
      && (Walk(groups, groupId, limit, None) == sorted <==> CleanCuts(sorted, limit))
      && |Walk(groups, groupId, limit, None)| <= |sorted|
      && OrderSorted(sorted) && multiset(sorted) == multiset(GroupAt(groups, groupId))
  {
    WalkFrom(groups, groupId, limit, None);
    LeftSorted(groups, groupId, None);
    Sorting.SortContents(ByOrder(), GroupAt(groups, groupId));
  }

  /** Two patches of equal order, read one at a time: the second one is skipped. */
  lemma DirtyCutWitness(p: Patch, q: Patch)
    requires p.groupId == q.groupId && p.messageId != q.messageId && OrderOf(p) == OrderOf(q)
    ensures Walk(map[p.groupId := [p, q]], p.groupId, 1, None) == [p]
  {
    var groups := map[p.groupId := [p, q]];
    var both := [p, q];
    assert Sorting.Sorted(ByOrder(), both);
    Sorting.SortFixed(ByOrder(), both);
    assert Left(groups, p.groupId, None) == both;
    WalkStep(groups, p.groupId, 1, None);
    var last := OrderOf(both[0]);
    assert both[1..] == [q] && [q][1..] == [];
    assert Above([q], last) == [];
    assert Above(both, last) == Above([q], last);
    WalkStep(groups, p.groupId, 1, Some(last));
    assert both[..1] == [p];
  }

  ghost predicate DistinctOrders(s: seq<Patch>) {
    JsMap.Unique(OrderOf, s)
  }

  lemma {:induction false} StrictCutsClean(s: seq<Patch>, limit: int)
    requires limit >= 1 && forall i, j :: 0 <= i < j < |s| ==> OrderOf(s[i]) < OrderOf(s[j])
    ensures CleanCuts(s, limit)
    decreases |s|
  {
    if |s| > limit {
      StrictCutsClean(s[limit..], limit);
    }
  }

  /** With distinct orders the walk yields every patch exactly once, in ascending order. */
  lemma WalkYieldsAll(groups: Groups, groupId: string, limit: int)
    requires limit >= 1 && DistinctOrders(GroupAt(groups, groupId))
    ensures var walk := Walk(groups, groupId, limit, None);
      && multiset(walk) == multiset(GroupAt(groups, groupId))
      && forall i, j :: 0 <= i < j < |walk| ==> OrderOf(walk[i]) < OrderOf(walk[j])
  {
    var sorted := Sorting.Sort(ByOrder(), GroupAt(groups, groupId));
    WalkExactly(groups, groupId, limit);
    StrictlyAscending(GroupAt(groups, groupId));
    StrictCutsClean(sorted, limit);
  }

  lemma StrictlyAscending(group: seq<Patch>)
    requires DistinctOrders(group)
    ensures var sorted := Sorting.Sort(ByOrder(), group);
      forall i, j :: 0 <= i < j < |sorted| ==> OrderOf(sorted[i]) < OrderOf(sorted[j])
  {
    var sorted := Sorting.Sort(ByOrder(), group);
    Sorting.SortContents(ByOrder(), group);
    Sorting.SortSorted(ByOrder(), group);
    JsMap.Rearranged(OrderOf, group, sorted);
    forall i, j | 0 <= i < j < |sorted| ensures OrderOf(sorted[i]) < OrderOf(sorted[j]) {
      assert ByOrder()(sorted[i], sorted[j]);
    }
  }
}
