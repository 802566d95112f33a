/** The message list of an open thread: merging pages with optimistic stubs. */
module Timeline {
  import opened Base
  import JsMap
  import Sorting

  /** `rest` stands for the fields that merging only carries along. */
  datatype Message = Message(
    id: string,
    order: int,
    createdAt: real,
    kind: Option<string>,
    system: Option<string>,
    rest: string)

  // ------------------------------------------------------------------- the order

  predicate Before(c: Collation, a: Message, b: Message) {
    if a.order != b.order then a.order < b.order
    else if a.createdAt != b.createdAt then a.createdAt < b.createdAt
    else c(a.id) < c(b.id)
  }

  function NotAfter(c: Collation): (Message, Message) -> bool {
    (a, b) => !Before(c, b, a)
  }

  function Strictly(c: Collation): (Message, Message) -> bool {
    (a, b) => Before(c, a, b)
  }

  function SortMessagesByOrder(c: Collation, s: seq<Message>): seq<Message> {
    Sorting.Sort(NotAfter(c), s)
  }

  // ----------------------------------------------------------------- normalising

  const KNOWN_KINDS: set<string> := {"text", "system", "post", "request_payment", "poll", "token_transfer", "event"}

  function Normalize(raw: Message): Message {
    var kind := if raw.kind.Some? && raw.kind.value in KNOWN_KINDS then raw.kind.value else "text";
    raw.(kind := Some(kind), system := if kind == "system" then raw.system else None)
  }

  function NormalizeAll(s: seq<Message>): seq<Message> {
    seq(|s|, i requires 0 <= i < |s| => Normalize(s[i]))
  }

  predicate Optimistic(id: string) {
    "optimistic-" <= id
  }

  // ------------------------------------------------- the Map from id to message, in insertion order

  function IdOf(m: Message): string {
    m.id
  }

  ghost predicate Unique(s: seq<Message>) {
    JsMap.Unique(IdOf, s)
  }

  function Put(s: seq<Message>, m: Message): seq<Message> {
    JsMap.Put(IdOf, s, m)
  }

  function PutAll(s: seq<Message>, ms: seq<Message>): seq<Message> {
    if ms == [] then s else Put(PutAll(s, ms[..|ms| - 1]), ms[|ms| - 1])
  }

  function ConfirmedOrders(s: seq<Message>): set<int> {
    set m | m in s && !Optimistic(m.id) :: m.order
  }

  /** The stubs whose order has been confirmed are deleted. */
  function Without(s: seq<Message>, orders: set<int>): seq<Message> {
    if s == [] then []
    else
      var front, m := Without(s[..|s| - 1], orders), s[|s| - 1];
      if Optimistic(m.id) && m.order in orders then front else front + [m]
  }

  function Merge(c: Collation, prev: seq<Message>, incoming: seq<Message>): seq<Message> {
    var byId := PutAll(PutAll([], prev), NormalizeAll(incoming));
    SortMessagesByOrder(c, Without(byId, ConfirmedOrders(byId)))
  }

  method MergeMessages(c: Collation, prev: seq<Message>, incoming: seq<Message>) returns (r: seq<Message>)
    ensures r == Merge(c, prev, incoming)
  {
    var byId := SetEach([], prev);
    byId := SetEach(byId, NormalizeAll(incoming));
    byId := DeleteStubs(byId, ConfirmedOrders(byId));
    r := SortMessagesByOrder(c, byId);
  }

  method SetEach(before: seq<Message>, ms: seq<Message>) returns (byId: seq<Message>)
    ensures byId == PutAll(before, ms)
  {
    byId := before;
    for i := 0 to |ms|
      invariant byId == PutAll(before, ms[..i])
    {
      assert ms[..i + 1][..i] == ms[..i];
      byId := Put(byId, ms[i]);
    }
    assert ms[..|ms|] == ms;
  }

  method DeleteStubs(byId: seq<Message>, confirmedOrders: set<int>) returns (kept: seq<Message>)
    ensures kept == Without(byId, confirmedOrders)
  {
    kept := [];
    for i := 0 to |byId|
      invariant kept == Without(byId[..i], confirmedOrders)
    {
      assert byId[..i + 1][..i] == byId[..i];
      if !(Optimistic(byId[i].id) && byId[i].order in confirmedOrders) {
        kept := kept + [byId[i]];
      }
    }
    assert byId[..|byId|] == byId;
  }

  // ------------------------------------------------------------ what a merge means

  /** The last copy of an id in a list. */
  function Latest(s: seq<Message>, id: string): Option<Message> {
    if s == [] then None
    else if s[|s| - 1].id == id then Some(s[|s| - 1])
    else Latest(s[..|s| - 1], id)
  }

  /** Some confirmed id has this order in its last copy. */
  ghost predicate OrderConfirmed(s: seq<Message>, order: int) {
    exists m :: m in s && Latest(s, m.id) == Some(m) && !Optimistic(m.id) && m.order == order
  }

  /** The row is the last copy of its id, and no stub whose order is confirmed. */
  ghost predicate Stays(s: seq<Message>, m: Message) {
    Latest(s, m.id) == Some(m) && !(Optimistic(m.id) && OrderConfirmed(s, m.order))
  }

  /** Sorted by (order, createdAt, id), unique ids, no stub beside a confirmed row of its order. */
  ghost predicate WellFormed(c: Collation, r: seq<Message>) {
    && Sorting.Sorted(NotAfter(c), r)
    && Unique(r)
    && forall x, y :: x in r && y in r && Optimistic(x.id) && !Optimistic(y.id) ==> x.order != y.order
  }

  /** No two ids are left undecided by the comparison: equal order, equal time, equal rank. */
  ghost predicate NoTies(c: Collation, s: seq<Message>) {
    forall x, y :: x in s && y in s && x.id != y.id && x.order == y.order && x.createdAt == y.createdAt
      ==> c(x.id) != c(y.id)
  }

  lemma {:induction false} PutAllFacts(s: seq<Message>, ms: seq<Message>)
    requires Unique(s)
    ensures Unique(PutAll(s, ms))
    ensures forall x :: x in PutAll(s, ms) <==>
      Latest(ms, x.id) == Some(x) || (Latest(ms, x.id) == None && x in s)
  {
    if ms != [] {
      var k := |ms| - 1;
      PutAllFacts(s, ms[..k]);
      JsMap.PutFacts(IdOf, PutAll(s, ms[..k]), ms[k]);
    }
  }

  lemma {:induction false} LatestFacts(s: seq<Message>, id: string)
    ensures Latest(s, id).Some? ==> Latest(s, id).value in s && Latest(s, id).value.id == id
    ensures Latest(s, id) == None ==> forall m :: m in s ==> m.id != id
  {
    if s != [] {
      LatestFacts(s[..|s| - 1], id);
      assert s == s[..|s| - 1] + [s[|s| - 1]];
    }
  }

  lemma {:induction false} LatestAppend(a: seq<Message>, b: seq<Message>, id: string)
    ensures Latest(a + b, id) == if Latest(b, id).Some? then Latest(b, id) else Latest(a, id)
  {
    if b == [] {
      assert a + b == a;
    } else {
      LatestAppend(a, b[..|b| - 1], id);
      assert (a + b)[..|a + b| - 1] == a + b[..|b| - 1];
    }
  }

  lemma {:induction false} LatestInUnique(s: seq<Message>, m: Message)
    requires Unique(s)
    ensures m in s <==> Latest(s, m.id) == Some(m)
  {
    if s != [] {
      LatestInUnique(s[..|s| - 1], m);
      assert s == s[..|s| - 1] + [s[|s| - 1]];
    }
  }

  lemma {:induction false} WithoutFacts(s: seq<Message>, orders: set<int>)
    requires Unique(s)
    ensures Unique(Without(s, orders))
    ensures forall x :: x in Without(s, orders) <==> x in s && !(Optimistic(x.id) && x.order in orders)
  {
    if s != [] {
      var k := |s| - 1;
      WithoutFacts(s[..k], orders);
      assert s == s[..k] + [s[k]];
      assert forall x :: x in s[..k] ==> x.id != s[k].id;
    }
  }

  /** Sorting rows with unique ids keeps them, in order. */
  lemma SortUnique(c: Collation, s: seq<Message>)
    requires Unique(s)
    ensures Sorting.Sorted(NotAfter(c), SortMessagesByOrder(c, s))
    ensures Unique(SortMessagesByOrder(c, s))
    ensures forall x :: x in SortMessagesByOrder(c, s) <==> x in s
  {
    Sorting.SortContents(NotAfter(c), s);
    Sorting.SortSorted(NotAfter(c), s);
    JsMap.Rearranged(IdOf, s, SortMessagesByOrder(c, s));
  }

  /** The map of a merge holds the last copy of every id, and its confirmed orders are theirs. */
  lemma MapMeaning(prev: seq<Message>, page: seq<Message>)
    ensures var byId := PutAll(PutAll([], prev), page);
      && Unique(byId)
      && (forall m :: m in byId <==> Latest(prev + page, m.id) == Some(m))
      && (forall order :: order in ConfirmedOrders(byId) <==> OrderConfirmed(prev + page, order))
  {
    var byId := PutAll(PutAll([], prev), page);
    PutAllFacts([], prev);
    PutAllFacts(PutAll([], prev), page);
    forall m ensures m in byId <==> Latest(prev + page, m.id) == Some(m) {
      LatestAppend(prev, page, m.id);
    }
    forall order ensures order in ConfirmedOrders(byId) <==> OrderConfirmed(prev + page, order) {
      if order in ConfirmedOrders(byId) {
        var m :| m in byId && !Optimistic(m.id) && m.order == order;
        LatestFacts(prev + page, m.id);
      }
    }
  }

  /** Oldest first: by order, then by creation time, then by the rank of the id. */
  ghost predicate OldestFirst(c: Collation, r: seq<Message>) {
    forall i, j :: 0 <= i < j < |r| ==>
      && r[i].order <= r[j].order
      && (r[i].order == r[j].order ==> r[i].createdAt <= r[j].createdAt)
      && (r[i].order == r[j].order && r[i].createdAt == r[j].createdAt ==> c(r[i].id) <= c(r[j].id))
  }

  lemma SortedIsOldestFirst(c: Collation, r: seq<Message>)
    ensures Sorting.Sorted(NotAfter(c), r) <==> OldestFirst(c, r)
  {
    if OldestFirst(c, r) {
      forall i, j | 0 <= i < j < |r| ensures NotAfter(c)(r[i], r[j]) {
      }
    }
    if Sorting.Sorted(NotAfter(c), r) {
      forall i, j | 0 <= i < j < |r| ensures !Before(c, r[j], r[i]) {
        assert NotAfter(c)(r[i], r[j]);
      }
    }
  }

  /** The rows of a merge are exactly the last copies, minus the stubs whose order is confirmed;
      the result is well formed and stands oldest first, whatever the two lists and the collation are. */
  lemma MergeMeaning(c: Collation, prev: seq<Message>, incoming: seq<Message>)
    ensures WellFormed(c, Merge(c, prev, incoming)) && OldestFirst(c, Merge(c, prev, incoming))
    ensures forall m :: m in Merge(c, prev, incoming) <==> Stays(prev + NormalizeAll(incoming), m)
  {
    SortedIsOldestFirst(c, Merge(c, prev, incoming));
    var byId := PutAll(PutAll([], prev), NormalizeAll(incoming));
    MapMeaning(prev, NormalizeAll(incoming));
    WithoutFacts(byId, ConfirmedOrders(byId));
    SortUnique(c, Without(byId, ConfirmedOrders(byId)));
  }

  /** A timeline is strictly sorted exactly when the collation leaves no two of its rows undecided. */
  lemma StrictExactly(c: Collation, r: seq<Message>)
    requires WellFormed(c, r)
    ensures Sorting.StrictlySorted(Strictly(c), r) <==> NoTies(c, r)
  {
    if NoTies(c, r) {
      forall i, j | 0 <= i < j < |r| ensures Strictly(c)(r[i], r[j]) {
        assert NotAfter(c)(r[i], r[j]);
        assert IdOf(r[i]) != IdOf(r[j]);
      }
    }
    if Sorting.StrictlySorted(Strictly(c), r) {
      forall x, y | x in r && y in r && x.id != y.id && x.order == y.order && x.createdAt == y.createdAt
        ensures c(x.id) != c(y.id)
      {
        var i :| 0 <= i < |r| && r[i] == x;
        var j :| 0 <= j < |r| && r[j] == y;
        assert if i < j then Strictly(c)(r[i], r[j]) else Strictly(c)(r[j], r[i]);
      }
    }
  }

  /** What the raw row becomes: its id, order, time and the fields carried along stay; a kind in use stays, any
      other one becomes "text"; and the system payload stays with a system notice only. */
  ghost predicate Becomes(raw: Message, m: Message) {
    var inUse := raw.kind in {Some("text"), Some("system"), Some("post"), Some("request_payment"), Some("poll"),
                              Some("token_transfer"), Some("event")};
    && m.id == raw.id && m.order == raw.order && m.createdAt == raw.createdAt && m.rest == raw.rest
    && m.kind == (if inUse then raw.kind else Some("text"))
    && m.system == (if raw.kind == Some("system") then raw.system else None)
  }

  /** A merge makes up no row: each one is a row of the previous list, or what an incoming one becomes. */
  lemma MergedRowOrigin(c: Collation, prev: seq<Message>, incoming: seq<Message>, m: Message)
    requires m in Merge(c, prev, incoming)
    ensures m in prev || exists raw :: raw in incoming && Becomes(raw, m)
  {
    MergeMeaning(c, prev, incoming);
    LatestFacts(prev + NormalizeAll(incoming), m.id);
    if m !in prev {
      var i :| 0 <= i < |incoming| && NormalizeAll(incoming)[i] == m;
      NormalBecomes(incoming[i]);
      assert incoming[i] in incoming;
    }
  }

  lemma NormalBecomes(raw: Message)
    ensures Becomes(raw, Normalize(raw))
  {
    assert "system" in KNOWN_KINDS;
    assert "text"[0] != "system"[0];
  }

  /** Stubs are told by the prefix of their id. */
  lemma StubIds(id: string)
    ensures Optimistic(id) <==> exists rest: string :: id == "optimistic-" + rest
  {
    if Optimistic(id) {
      assert id == "optimistic-" + id[11..];
    }
  }

  /** Two well-formed timelines with the same rows, none of them tied, are the same list. */
  lemma SameRows(c: Collation, a: seq<Message>, b: seq<Message>)
    requires WellFormed(c, a) && WellFormed(c, b) && NoTies(c, a)
    requires forall m :: m in a <==> m in b
    ensures a == b
  {
    StrictExactly(c, a);
    StrictExactly(c, b);
    Sorting.SameElements(Strictly(c), a, b);
  }

  /** No merge loses a confirmed row. */
  lemma MergeKeepsConfirmed(c: Collation, prev: seq<Message>, incoming: seq<Message>, m: Message)
    requires m in prev + incoming && !Optimistic(m.id)
    ensures exists x :: x in Merge(c, prev, incoming) && x.id == m.id
  {
    MergeMeaning(c, prev, incoming);
    var all := prev + NormalizeAll(incoming);
    LatestFacts(all, m.id);
    if m !in prev {
      var i :| 0 <= i < |incoming| && incoming[i] == m;
      assert NormalizeAll(incoming)[i].id == m.id && NormalizeAll(incoming)[i] in all;
    }
    assert Latest(all, m.id).Some?;
    assert Stays(all, Latest(all, m.id).value);
  }

  // ----------------------------------------------------------- merging page by page

  lemma NormalizeAppend(a: seq<Message>, b: seq<Message>)
    ensures NormalizeAll(a + b) == NormalizeAll(a) + NormalizeAll(b)
  {
  }

  /** No stub is dropped for a confirmed row that the second page moves to another order,
      unless the second page brings the stub again. */
  ghost predicate NoStubFreed(prev: seq<Message>, a: seq<Message>, b: seq<Message>) {
    var first := prev + NormalizeAll(a);
    forall m :: m in first && Optimistic(m.id) && Latest(first, m.id) == Some(m)
      && Latest(NormalizeAll(b), m.id) == None && OrderConfirmed(first, m.order)
      ==> OrderConfirmed(first + NormalizeAll(b), m.order)
  }

  /** After a merge, the last copy of an id is the one that stayed. */
  lemma LatestOfMerge(c: Collation, prev: seq<Message>, a: seq<Message>, id: string)
    ensures var l := Latest(prev + NormalizeAll(a), id);
      Latest(Merge(c, prev, a), id) ==
        if l.Some? && Stays(prev + NormalizeAll(a), l.value) then l else None
  {
    var all, r := prev + NormalizeAll(a), Merge(c, prev, a);
    MergeMeaning(c, prev, a);
    LatestFacts(all, id);
    LatestFacts(r, id);
    if Latest(r, id).Some? {
      LatestInUnique(r, Latest(r, id).value);
    }
  }

  /** Confirmed ids have the same last copies in the two ways to merge two pages. */
  lemma SameConfirmed(c: Collation, prev: seq<Message>, a: seq<Message>, b: seq<Message>, id: string)
    requires !Optimistic(id)
    ensures Latest(Merge(c, prev, a) + NormalizeAll(b), id) == Latest(prev + NormalizeAll(a) + NormalizeAll(b), id)
  {
    LatestOfMerge(c, prev, a, id);
    LatestFacts(prev + NormalizeAll(a), id);
    LatestAppend(Merge(c, prev, a), NormalizeAll(b), id);
    LatestAppend(prev + NormalizeAll(a), NormalizeAll(b), id);
  }

  lemma SameConfirmedOrders(c: Collation, prev: seq<Message>, a: seq<Message>, b: seq<Message>, order: int)
    ensures OrderConfirmed(Merge(c, prev, a) + NormalizeAll(b), order)
      <==> OrderConfirmed(prev + NormalizeAll(a) + NormalizeAll(b), order)
  {
    var s, t := Merge(c, prev, a) + NormalizeAll(b), prev + NormalizeAll(a) + NormalizeAll(b);
    if OrderConfirmed(s, order) {
      var m :| m in s && Latest(s, m.id) == Some(m) && !Optimistic(m.id) && m.order == order;
      SameConfirmed(c, prev, a, b, m.id);
      LatestFacts(t, m.id);
    }
    if OrderConfirmed(t, order) {
      var m :| m in t && Latest(t, m.id) == Some(m) && !Optimistic(m.id) && m.order == order;
      SameConfirmed(c, prev, a, b, m.id);
      LatestFacts(s, m.id);
    }
  }

  /** The rows that page-by-page merging keeps. */
  lemma PagedMeaning(c: Collation, prev: seq<Message>, a: seq<Message>, b: seq<Message>, m: Message)
    ensures var first := prev + NormalizeAll(a);
      m in Merge(c, Merge(c, prev, a), b) <==>
        && Stays(first + NormalizeAll(b), m)
        && (Optimistic(m.id) && Latest(NormalizeAll(b), m.id) == None ==> !OrderConfirmed(first, m.order))
  {
    var first := prev + NormalizeAll(a);
    var r1 := Merge(c, prev, a);
    MergeMeaning(c, r1, b);
    SameConfirmedOrders(c, prev, a, b, m.order);
    LatestOfMerge(c, prev, a, m.id);
    LatestFacts(first, m.id);
    LatestAppend(r1, NormalizeAll(b), m.id);
    LatestAppend(first, NormalizeAll(b), m.id);
  }

  /** Merging two pages one after the other gives the same rows as merging them at once, exactly when no
      stub is freed between them; and the same list, as far as the collation decides its order. */
  lemma PagedMergeExactly(c: Collation, prev: seq<Message>, a: seq<Message>, b: seq<Message>)
    ensures var paged, whole := Merge(c, Merge(c, prev, a), b), Merge(c, prev, a + b);
      && ((forall m :: m in paged <==> m in whole) <==> NoStubFreed(prev, a, b))
      && (NoTies(c, whole) ==> (paged == whole <==> NoStubFreed(prev, a, b)))
  {
    var first := prev + NormalizeAll(a);
    var paged, whole := Merge(c, Merge(c, prev, a), b), Merge(c, prev, a + b);
    NormalizeAppend(a, b);
    assert prev + NormalizeAll(a + b) == first + NormalizeAll(b);
    MergeMeaning(c, prev, a + b);
    MergeMeaning(c, Merge(c, prev, a), b);
    forall m ensures m in paged <==> (m in whole
        && (Optimistic(m.id) && Latest(NormalizeAll(b), m.id) == None ==> !OrderConfirmed(first, m.order)))
    {
      PagedMeaning(c, prev, a, b, m);
    }
    if NoStubFreed(prev, a, b) {
      forall m | m in whole ensures m in paged {
        StubNotFreed(prev, a, b, m);
      }
      if NoTies(c, whole) {
        SameRows(c, whole, paged);
      }
    } else {
      var m :| m in first && Optimistic(m.id) && Latest(first, m.id) == Some(m)
        && Latest(NormalizeAll(b), m.id) == None && OrderConfirmed(first, m.order)
        && !OrderConfirmed(first + NormalizeAll(b), m.order);
      LatestAppend(first, NormalizeAll(b), m.id);
      assert m in whole && m !in paged;
    }
  }

  /** A stub is dropped for a confirmed row, which the next page then moves: only the merge at once keeps it. */
  lemma FreedStubWitness(c: Collation, stub: Message, row: Message, moved: Message)
    requires Optimistic(stub.id) && !Optimistic(row.id) && moved.id == row.id
    requires stub.order == row.order != moved.order
    ensures stub !in Merge(c, Merge(c, [stub], [row]), [moved])
    ensures stub in Merge(c, [stub], [row] + [moved])
  {
    var first, last := [stub, Normalize(row)], [Normalize(moved)];
    assert [stub] + NormalizeAll([row]) == first && NormalizeAll([moved]) == last;
    FreedStubStays(stub, Normalize(row), Normalize(moved));
    PagedMeaning(c, [stub], [row], [moved], stub);
    NormalizeAppend([row], [moved]);
    assert [stub] + NormalizeAll([row] + [moved]) == first + last;
    MergeMeaning(c, [stub], [row] + [moved]);
  }

  lemma FreedStubStays(stub: Message, row: Message, moved: Message)
    requires Optimistic(stub.id) && !Optimistic(row.id) && moved.id == row.id
    requires stub.order == row.order != moved.order
    ensures OrderConfirmed([stub, row], stub.order) && Latest([moved], stub.id) == None
    ensures Stays([stub, row] + [moved], stub)
  {
    assert [stub, row] == [stub] + [row];
    LatestAppend([stub], [row], row.id);
    LatestAppend([stub], [row], stub.id);
    LatestAppend([stub, row], [moved], stub.id);
    LatestAppend([stub, row], [moved], row.id);
    assert row in [stub, row];
  }

  lemma StubNotFreed(prev: seq<Message>, a: seq<Message>, b: seq<Message>, m: Message)
    requires NoStubFreed(prev, a, b) && Stays(prev + NormalizeAll(a) + NormalizeAll(b), m)
    ensures Optimistic(m.id) && Latest(NormalizeAll(b), m.id) == None ==> !OrderConfirmed(prev + NormalizeAll(a), m.order)
  {
    LatestAppend(prev + NormalizeAll(a), NormalizeAll(b), m.id);
    LatestFacts(prev + NormalizeAll(a), m.id);
  }

  /** Each id keeps one order in all its copies. */
  ghost predicate StableOrders(s: seq<Message>) {
    forall x, y :: x in s && y in s && x.id == y.id ==> x.order == y.order
  }

  /** Under stable orders no stub is freed. */
  lemma StableFreesNone(prev: seq<Message>, a: seq<Message>, b: seq<Message>)
    requires StableOrders(prev + a + b)
    ensures NoStubFreed(prev, a, b)
  {
    var first, last := prev + NormalizeAll(a), NormalizeAll(b);
    forall x: Message | x in first + last ensures HasOriginal(prev + a + b, x) {
      SomeOriginal(prev, a, b, x);
    }
    forall order | OrderConfirmed(first, order) ensures OrderConfirmed(first + last, order) {
      var m :| m in first && Latest(first, m.id) == Some(m) && !Optimistic(m.id) && m.order == order;
      LatestAppend(first, last, m.id);
      LatestFacts(first + last, m.id);
      var x := Latest(first + last, m.id).value;
      assert x.order == m.order;
    }
  }

  /** Where the copies have no ties, their merge has none. */
  lemma MergeHasNoTies(c: Collation, prev: seq<Message>, incoming: seq<Message>)
    requires NoTies(c, prev + incoming)
    ensures NoTies(c, Merge(c, prev, incoming))
  {
    MergeMeaning(c, prev, incoming);
    forall x: Message | x in Merge(c, prev, incoming) ensures HasOriginal(prev + incoming, x) {
      LatestFacts(prev + NormalizeAll(incoming), x.id);
      SomeOriginal(prev, incoming, [], x);
      assert prev + incoming + [] == prev + incoming;
    }
  }

  ghost predicate HasOriginal(s: seq<Message>, x: Message) {
    exists y: Message :: y in s && y.id == x.id && y.order == x.order && y.createdAt == x.createdAt
  }

  lemma SomeOriginal(prev: seq<Message>, a: seq<Message>, b: seq<Message>, x: Message)
    requires x in prev + NormalizeAll(a) + NormalizeAll(b)
    ensures HasOriginal(prev + a + b, x)
  {
    if x in prev {
    } else if x in NormalizeAll(a) {
      var i :| 0 <= i < |a| && NormalizeAll(a)[i] == x;
      assert a[i] in a;
    } else {
      var i :| 0 <= i < |b| && NormalizeAll(b)[i] == x;
      assert b[i] in b;
    }
  }

  function Concat(pages: seq<seq<Message>>): seq<Message> {
    if pages == [] then [] else Concat(pages[..|pages| - 1]) + pages[|pages| - 1]
  }

  function MergePages(c: Collation, prev: seq<Message>, pages: seq<seq<Message>>): seq<Message> {
    if pages == [] then prev else Merge(c, MergePages(c, prev, pages[..|pages| - 1]), pages[|pages| - 1])
  }

  /** Any number of pages, merged as they arrive, give the rows of one merge of all of them; and the same
      list, when no two copies of different ids tie. */
  lemma PagesMergeAsOne(c: Collation, prev: seq<Message>, pages: seq<seq<Message>>)
    requires pages != [] && StableOrders(prev + Concat(pages))
    ensures forall m :: m in MergePages(c, prev, pages) <==> m in Merge(c, prev, Concat(pages))
    ensures NoTies(c, prev + Concat(pages)) ==> MergePages(c, prev, pages) == Merge(c, prev, Concat(pages))
  {
    PagesSameRows(c, prev, pages);
    if NoTies(c, prev + Concat(pages)) {
      MergeHasNoTies(c, prev, Concat(pages));
      MergeMeaning(c, prev, Concat(pages));
      MergeMeaning(c, MergePages(c, prev, pages[..|pages| - 1]), pages[|pages| - 1]);
      SameRows(c, Merge(c, prev, Concat(pages)), MergePages(c, prev, pages));
    }
  }

  lemma {:induction false} PagesSameRows(c: Collation, prev: seq<Message>, pages: seq<seq<Message>>)
    requires pages != [] && StableOrders(prev + Concat(pages))
    ensures forall m :: m in MergePages(c, prev, pages) <==> m in Merge(c, prev, Concat(pages))
  {
    var n := |pages| - 1;
    var front, last := pages[..n], pages[n];
    assert prev + Concat(pages) == prev + Concat(front) + last;
    if n == 0 {
      assert Concat(pages) == last;
    } else {
      assert forall m :: m in prev + Concat(front) ==> m in prev + Concat(pages);
      PagesSameRows(c, prev, front);
      StableFreesNone(prev, Concat(front), last);
      PagedMergeExactly(c, prev, Concat(front), last);
      var paged := MergePages(c, prev, front);
      MergeMeaning(c, prev, Concat(front));
      MergeMeaning(c, MergePages(c, prev, front[..n - 1]), front[n - 1]);
      SameRowsMerge(c, paged, Merge(c, prev, Concat(front)), last);
    }
  }

  /** Lists with the same rows, one for each id, merge with a page to the same rows. */
  lemma SameRowsMerge(c: Collation, r: seq<Message>, s: seq<Message>, page: seq<Message>)
    requires Unique(r) && Unique(s) && forall m :: m in r <==> m in s
    ensures forall m :: m in Merge(c, r, page) <==> m in Merge(c, s, page)
  {
    var last := NormalizeAll(page);
    forall id ensures Latest(r + last, id) == Latest(s + last, id) {
      SameLatest(r, s, id);
      LatestAppend(r, last, id);
      LatestAppend(s, last, id);
    }
    assert forall m :: m in r + last <==> m in s + last;
    MergeMeaning(c, r, page);
    MergeMeaning(c, s, page);
    forall m ensures Stays(r + last, m) <==> Stays(s + last, m) {
    }
  }

  lemma SameLatest(r: seq<Message>, s: seq<Message>, id: string)
    requires Unique(r) && Unique(s) && forall m :: m in r <==> m in s
    ensures Latest(r, id) == Latest(s, id)
  {
    LatestFacts(r, id);
    LatestFacts(s, id);
    if Latest(r, id).Some? {
      LatestInUnique(s, Latest(r, id).value);
    }
  }

  lemma {:induction false} PutKeepsPlaces(s: seq<Message>, m: Message)
    ensures |s| <= |Put(s, m)|
    ensures forall i :: 0 <= i < |s| ==> Put(s, m)[i].id == s[i].id
    ensures (forall x :: x in s ==> x.id != m.id) ==> Put(s, m) == s + [m]
  {
    if s != [] && s[0].id != m.id {
      PutKeepsPlaces(s[1..], m);
      assert forall x :: x in s[1..] ==> x in s;
      assert s == [s[0]] + s[1..];
    } else if s != [] {
      assert s[0] in s;
    }
  }

  lemma {:induction false} PutAllKeepsPlaces(s: seq<Message>, ms: seq<Message>)
    ensures |s| <= |PutAll(s, ms)|
    ensures forall i :: 0 <= i < |s| ==> PutAll(s, ms)[i].id == s[i].id
  {
    if ms != [] {
      var k := |ms| - 1;
      PutAllKeepsPlaces(s, ms[..k]);
      PutKeepsPlaces(PutAll(s, ms[..k]), ms[k]);
    }
  }

  lemma {:induction false} PutAllOwn(s: seq<Message>)
    requires Unique(s)
    ensures PutAll([], s) == s
  {
    if s != [] {
      var k := |s| - 1;
      PutAllOwn(s[..k]);
      forall x | x in s[..k] ensures x.id != s[k].id {
        var i :| 0 <= i < k && s[i] == x;
        assert IdOf(s[i]) != IdOf(s[k]);
      }
      PutKeepsPlaces(s[..k], s[k]);
      assert s == s[..k] + [s[k]];
    }
  }

  lemma {:induction false} WithoutBehind(s: seq<Message>, orders: set<int>, n: nat)
    requires n <= |s|
    requires forall i :: 0 <= i < |s| ==> (i < n <==> !(Optimistic(s[i].id) && s[i].order in orders))
    ensures Without(s, orders) == s[..n]
  {
    if s != [] {
      var k := |s| - 1;
      if n <= k {
        WithoutBehind(s[..k], orders, n);
        assert s[..k][..n] == s[..n];
      } else {
        WithoutBehind(s[..k], orders, k);
        assert s[..n] == s[..k] + [s[k]];
      }
    }
  }

  /** The map of a second merge of the page: the timeline's rows in their places, then the stubs that
      the first merge dropped. */
  lemma SecondMap(c: Collation, prev: seq<Message>, a: seq<Message>)
    ensures var r, page := Merge(c, prev, a), NormalizeAll(a);
      var byId := PutAll(PutAll([], r), page);
      && |r| <= |byId| && byId[..|r|] == r
      && (forall m :: m in byId ==> Latest(prev + page, m.id) == Some(m))
      && (forall j :: |r| <= j < |byId| ==> byId[j] !in r)
  {
    var r, page := Merge(c, prev, a), NormalizeAll(a);
    MergeMeaning(c, prev, a);
    PutAllOwn(r);
    var byId := PutAll(r, page);
    PutAllFacts(r, page);
    PutAllKeepsPlaces(r, page);
    forall m | m in byId ensures Latest(prev + page, m.id) == Some(m) {
      LatestAppend(prev, page, m.id);
    }
    forall i | 0 <= i < |r| ensures byId[i] == r[i] {
      assert r[i] in r && byId[i] in byId && byId[i].id == r[i].id;
    }
    forall j | |r| <= j < |byId| ensures byId[j] !in r {
      forall i | 0 <= i < |r| ensures r[i] != byId[j] {
        assert IdOf(byId[i]) != IdOf(byId[j]);
      }
    }
  }

  /** Merging the same page twice changes nothing, ties or not. */
  lemma MergeIdempotent(c: Collation, prev: seq<Message>, a: seq<Message>)
    ensures Merge(c, Merge(c, prev, a), a) == Merge(c, prev, a)
  {
    var r, page := Merge(c, prev, a), NormalizeAll(a);
    var byId := PutAll(PutAll([], r), page);
    var orders := ConfirmedOrders(byId);
    MergeMeaning(c, prev, a);
    SecondMap(c, prev, a);
    forall order ensures order in orders <==> OrderConfirmed(prev + page, order) {
      SecondOrders(c, prev, a, order);
    }
    forall i | 0 <= i < |byId|
      ensures i < |r| <==> !(Optimistic(byId[i].id) && byId[i].order in orders)
    {
      assert byId[i] in byId;
      if i < |r| {
        assert byId[..|r|][i] == byId[i] && byId[i] in r;
      }
    }
    WithoutBehind(byId, orders, |r|);
    Sorting.SortFixed(NotAfter(c), r);
  }

  lemma SecondOrders(c: Collation, prev: seq<Message>, a: seq<Message>, order: int)
    ensures var byId := PutAll(PutAll([], Merge(c, prev, a)), NormalizeAll(a));
      order in ConfirmedOrders(byId) <==> OrderConfirmed(prev + NormalizeAll(a), order)
  {
    var r, all := Merge(c, prev, a), prev + NormalizeAll(a);
    var byId := PutAll(PutAll([], r), NormalizeAll(a));
    SecondMap(c, prev, a);
    MergeMeaning(c, prev, a);
    if order in ConfirmedOrders(byId) {
      var m :| m in byId && !Optimistic(m.id) && m.order == order;
      LatestFacts(all, m.id);
    }
    if OrderConfirmed(all, order) {
      var m :| m in all && Latest(all, m.id) == Some(m) && !Optimistic(m.id) && m.order == order;
      assert Stays(all, m) && m in r;
      var i :| 0 <= i < |r| && r[i] == m;
      assert byId[..|r|][i] == byId[i];
    }
  }
}
