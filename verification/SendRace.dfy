/** Sending: the optimistic stub, the POST response, the live echo, and loads of the list may meet in any order. */
module SendRace {
  import opened Base
  import opened Timeline
  import Sorting

  /** The steps that change the list on the screen: every call that sets it. */
  datatype Event =
    | Begin(stub: Message)                     // a send starts: its stub is merged
    | Respond(temp: string, confirmed: string) // the POST of a send returned the message id
    | Fail(temp: string)                       // the POST of a send failed for good
    | Incoming(page: seq<Message>)             // a live echo, or a fetched page
    | Restore(recovered: seq<Message>)         // archived rows, merged below the present ones
    | Load(initial: seq<Message>)              // a thread is opened, or its initial load ends: the list is replaced
    | Edit(id: string, rest: string)           // a local edit or deletion, in place

  predicate HasId(rows: seq<Message>, id: string) {
    exists m :: m in rows && m.id == id
  }

  /** `find`: the first row with the id. */
  function Find(rows: seq<Message>, id: string): Option<Message> {
    if rows == [] then None
    else if rows[0].id == id then Some(rows[0])
    else Find(rows[1..], id)
  }

  /** `filter` on the id. */
  function Remove(rows: seq<Message>, id: string): seq<Message> {
    if rows == [] then []
    else if rows[0].id == id then Remove(rows[1..], id)
    else [rows[0]] + Remove(rows[1..], id)
  }

  /** The swap after the response: the server's row wins, else the stub takes the confirmed id. */
  function SwapId(c: Collation, rows: seq<Message>, temp: string, confirmed: string): seq<Message> {
    var fromTemp, fromServer := Find(rows, temp), Find(rows, confirmed);
    var others := Remove(Remove(rows, temp), confirmed);
    if fromServer.Some? then SortMessagesByOrder(c, others + [fromServer.value])
    else if fromTemp.Some? then SortMessagesByOrder(c, others + [fromTemp.value.(id := confirmed)])
    else rows
  }

  /** `map` over the rows: the one with the id takes other contents. */
  function Edited(rows: seq<Message>, id: string, rest: string): seq<Message> {
    seq(|rows|, i requires 0 <= i < |rows| => EditedRow(rows[i], id, rest))
  }

  function EditedRow(m: Message, id: string, rest: string): Message {
    if m.id == id then m.(rest := rest) else m
  }

  function Step(c: Collation, rows: seq<Message>, e: Event): seq<Message> {
    match e
    case Begin(stub) => Merge(c, rows, [stub])
    case Respond(temp, confirmed) => SwapId(c, rows, temp, confirmed)
    case Fail(temp) => Remove(rows, temp)
    case Incoming(page) => Merge(c, rows, page)
    case Restore(recovered) => Merge(c, recovered, rows)
    case Load(initial) => initial
    case Edit(id, rest) => Edited(rows, id, rest)
  }

  function Rows(c: Collation, start: seq<Message>, events: seq<Event>): seq<Message> {
    if events == [] then start
    else Step(c, Rows(c, start, events[..|events| - 1]), events[|events| - 1])
  }

  // --------------------------------------------- one send, as its caller sees it

  datatype Phase = Idle | InFlight | Responded | Failed

  /** Where the send is; the latest copy of its message that an arrival brought since the last load, or the
      load itself, with the local edits since; and whether a load brought the stub back after the answer. */
  datatype Progress = Progress(phase: Phase, latest: Option<Message>, revived: bool)

  predicate Answered(p: Progress) {
    p.phase == Responded || p.phase == Failed
  }

  function Advance(temp: string, confirmed: string, p: Progress, e: Event): Progress {
    match e
    case Begin(stub) => if stub.id == temp then p.(phase := InFlight) else p
    case Respond(t, _) => if t == temp then p.(phase := Responded) else p
    case Fail(t) => if t == temp then p.(phase := Failed) else p
    case Incoming(page) =>
      var copy := Latest(NormalizeAll(page), confirmed);
      if copy.Some? then p.(latest := copy) else p
    case Restore(_) => if p.latest.Some? then p.(latest := Some(Normalize(p.latest.value))) else p
    case Load(initial) => p.(latest := Latest(initial, confirmed), revived := Answered(p) && HasId(initial, temp))
    case Edit(id, rest) =>
      if p.latest.Some? && id == confirmed then p.(latest := Some(p.latest.value.(rest := rest))) else p
  }

  function ProgressOf(temp: string, confirmed: string, events: seq<Event>): Progress {
    if events == [] then Progress(Idle, None, false)
    else Advance(temp, confirmed, ProgressOf(temp, confirmed, events[..|events| - 1]), events[|events| - 1])
  }

  /** A list that can be shown: sorted, one row for each id. */
  ghost predicate IsList(c: Collation, rows: seq<Message>) {
    Sorting.Sorted(NotAfter(c), rows) && Unique(rows)
  }

  /** Temporary ids carry the stub prefix and are never sent by the server; a send begins once,
      and is answered at most once. Other sends may run at the same time. A loaded list may come from the session
      cache, and hold the stub of a send that has begun. */
  ghost predicate Legal(c: Collation, temp: string, confirmed: string, p: Progress, e: Event) {
    match e
    case Begin(stub) => Optimistic(stub.id) && (stub.id == temp ==> p.phase == Idle)
    case Respond(t, id) => Optimistic(t) && !Optimistic(id) && (t == temp <==> id == confirmed)
                           && (t == temp ==> p.phase == InFlight)
    case Fail(t) => Optimistic(t) && (t == temp ==> p.phase == InFlight)
    case Incoming(page) => !HasId(page, temp)
    case Restore(recovered) => !HasId(recovered, temp)
    case Load(initial) => IsList(c, initial) && (HasId(initial, temp) ==> p.phase != Idle)
    case Edit(_, _) => true
  }

  ghost predicate LegalRun(c: Collation, temp: string, confirmed: string, events: seq<Event>) {
    && Optimistic(temp) && !Optimistic(confirmed)
    && forall k :: 0 <= k < |events| ==> Legal(c, temp, confirmed, ProgressOf(temp, confirmed, events[..k]), events[k])
  }

  ghost predicate Consistent(c: Collation, rows: seq<Message>, temp: string, confirmed: string, p: Progress) {
    && IsList(c, rows)
    && (HasId(rows, temp) ==> p.phase == InFlight || p.revived)
    && (p.latest.Some? ==> p.latest.value in rows && p.latest.value.id == confirmed)
  }

  // ------------------------------------------------------------------ small facts

  lemma {:induction false} FindFacts(rows: seq<Message>, id: string)
    ensures Find(rows, id).Some? <==> HasId(rows, id)
    ensures Find(rows, id).Some? ==> Find(rows, id).value in rows && Find(rows, id).value.id == id
  {
    if rows != [] {
      FindFacts(rows[1..], id);
      assert rows == [rows[0]] + rows[1..];
    }
  }

  lemma {:induction false} RemoveRows(rows: seq<Message>, id: string)
    ensures forall m :: m in Remove(rows, id) <==> m in rows && m.id != id
  {
    if rows != [] {
      RemoveRows(rows[1..], id);
      assert rows == [rows[0]] + rows[1..];
    }
  }

  lemma {:induction false} RemoveSorted(le: (Message, Message) -> bool, rows: seq<Message>, id: string)
    requires Sorting.Sorted(le, rows)
    ensures Sorting.Sorted(le, Remove(rows, id))
  {
    if rows != [] {
      RemoveSorted(le, rows[1..], id);
      RemoveRows(rows[1..], id);
      var rest := Remove(rows[1..], id);
      forall j | 0 <= j < |rest| ensures le(rows[0], rest[j]) {
        assert rest[j] in rows[1..];
      }
    }
  }

  lemma {:induction false} RemoveUnique(rows: seq<Message>, id: string)
    requires Unique(rows)
    ensures Unique(Remove(rows, id))
  {
    if rows != [] {
      RemoveUnique(rows[1..], id);
      RemoveRows(rows[1..], id);
      var rest := Remove(rows[1..], id);
      forall j | 0 <= j < |rest| ensures rows[0].id != rest[j].id {
        assert rest[j] in rows[1..];
      }
    }
  }

  lemma RemoveFacts(c: Collation, rows: seq<Message>, id: string)
    requires Unique(rows)
    ensures forall m :: m in Remove(rows, id) <==> m in rows && m.id != id
    ensures Unique(Remove(rows, id))
    ensures Sorting.Sorted(NotAfter(c), rows) ==> Sorting.Sorted(NotAfter(c), Remove(rows, id))
  {
    RemoveRows(rows, id);
    RemoveUnique(rows, id);
    if Sorting.Sorted(NotAfter(c), rows) {
      RemoveSorted(NotAfter(c), rows, id);
    }
  }

  lemma NormalizedPage(page: seq<Message>, id: string)
    ensures Latest(NormalizeAll(page), id).Some? ==> HasId(page, id)
  {
    LatestFacts(NormalizeAll(page), id);
    if Latest(NormalizeAll(page), id).Some? {
      var i :| 0 <= i < |page| && NormalizeAll(page)[i] == Latest(NormalizeAll(page), id).value;
      assert page[i] in page && page[i].id == id;
    }
  }

  lemma {:induction false} NormalizedRow(rows: seq<Message>, m: Message)
    requires Latest(rows, m.id) == Some(m)
    ensures Latest(NormalizeAll(rows), m.id) == Some(Normalize(m))
  {
    var k := |rows| - 1;
    assert NormalizeAll(rows)[..k] == NormalizeAll(rows[..k]);
    if rows[k].id != m.id {
      NormalizedRow(rows[..k], m);
    }
  }

  // ------------------------------------------------- each event keeps the list consistent

  /** A merge that brings no temporary row adds none. */
  lemma MergeAddsNoTemp(c: Collation, prev: seq<Message>, incoming: seq<Message>, temp: string)
    requires HasId(Merge(c, prev, incoming), temp)
    ensures HasId(prev, temp) || HasId(incoming, temp)
  {
    MergeMeaning(c, prev, incoming);
    var m :| m in Merge(c, prev, incoming) && m.id == temp;
    LatestFacts(prev + NormalizeAll(incoming), temp);
    LatestAppend(prev, NormalizeAll(incoming), temp);
    NormalizedPage(incoming, temp);
    LatestFacts(prev, temp);
  }

  /** The last copy of a confirmed id is a row of the merge. */
  lemma ConfirmedStays(c: Collation, prev: seq<Message>, incoming: seq<Message>, m: Message)
    requires !Optimistic(m.id) && Latest(prev + NormalizeAll(incoming), m.id) == Some(m)
    ensures m in Merge(c, prev, incoming)
  {
    MergeMeaning(c, prev, incoming);
    assert Stays(prev + NormalizeAll(incoming), m);
  }

  /** Where an arrival leaves the latest copy. */
  lemma LatestAfter(rows: seq<Message>, page: seq<Message>, temp: string, confirmed: string, p: Progress)
    requires Unique(rows)
    requires p.latest.Some? ==> p.latest.value in rows && p.latest.value.id == confirmed
    ensures var next := Advance(temp, confirmed, p, Incoming(page)).latest;
      next.Some? ==> next.value.id == confirmed && Latest(rows + NormalizeAll(page), confirmed) == next
  {
    LatestAppend(rows, NormalizeAll(page), confirmed);
    LatestFacts(NormalizeAll(page), confirmed);
    if p.latest.Some? {
      LatestInUnique(rows, p.latest.value);
    }
  }

  lemma IncomingKeeps(c: Collation, rows: seq<Message>, page: seq<Message>, temp: string, confirmed: string, p: Progress)
    requires !Optimistic(confirmed) && !HasId(page, temp)
    requires Consistent(c, rows, temp, confirmed, p)
    ensures Consistent(c, Merge(c, rows, page), temp, confirmed, Advance(temp, confirmed, p, Incoming(page)))
  {
    MergeMeaning(c, rows, page);
    if HasId(Merge(c, rows, page), temp) {
      MergeAddsNoTemp(c, rows, page, temp);
    }
    var next := Advance(temp, confirmed, p, Incoming(page)).latest;
    LatestAfter(rows, page, temp, confirmed, p);
    if next.Some? {
      ConfirmedStays(c, rows, page, next.value);
    }
  }

  lemma RestoreKeeps(c: Collation, rows: seq<Message>, recovered: seq<Message>, temp: string, confirmed: string, p: Progress)
    requires !Optimistic(confirmed) && !HasId(recovered, temp)
    requires Consistent(c, rows, temp, confirmed, p)
    ensures Consistent(c, Merge(c, recovered, rows), temp, confirmed, Advance(temp, confirmed, p, Restore(recovered)))
  {
    MergeMeaning(c, recovered, rows);
    if HasId(Merge(c, recovered, rows), temp) {
      MergeAddsNoTemp(c, recovered, rows, temp);
    }
    if p.latest.Some? {
      LatestInUnique(rows, p.latest.value);
      NormalizedRow(rows, p.latest.value);
      LatestAppend(recovered, NormalizeAll(rows), confirmed);
      ConfirmedStays(c, recovered, rows, Normalize(p.latest.value));
    }
  }

  lemma BeginKeeps(c: Collation, rows: seq<Message>, stub: Message, temp: string, confirmed: string, p: Progress)
    requires !Optimistic(confirmed)
    requires Consistent(c, rows, temp, confirmed, p) && Legal(c, temp, confirmed, p, Begin(stub))
    ensures Consistent(c, Merge(c, rows, [stub]), temp, confirmed, Advance(temp, confirmed, p, Begin(stub)))
  {
    MergeMeaning(c, rows, [stub]);
    if HasId(Merge(c, rows, [stub]), temp) {
      MergeAddsNoTemp(c, rows, [stub], temp);
    }
    LatestAppend(rows, NormalizeAll([stub]), confirmed);
    NormalizedPage([stub], confirmed);
    if p.latest.Some? {
      LatestInUnique(rows, p.latest.value);
      assert Latest(NormalizeAll([stub]), confirmed) == None;
      assert Stays(rows + NormalizeAll([stub]), p.latest.value);
    }
  }

  /** What the swap does to the rows. */
  lemma SwapMeaning(c: Collation, rows: seq<Message>, t: string, id: string)
    requires t != id && Unique(rows)
    ensures var next := SwapId(c, rows, t, id);
      && Unique(next) && (Sorting.Sorted(NotAfter(c), rows) ==> Sorting.Sorted(NotAfter(c), next))
      && (forall m: Message :: m.id != t && m.id != id ==> (m in next <==> m in rows))
      && !HasId(next, t)
      && (HasId(rows, id) ==> forall m: Message :: m.id == id ==> (m in next <==> m in rows))
      && (HasId(rows, t) ==> HasId(next, id))
  {
    FindFacts(rows, t);
    FindFacts(rows, id);
    RemoveFacts(c, rows, t);
    RemoveFacts(c, Remove(rows, t), id);
    var others := Remove(Remove(rows, t), id);
    if HasId(rows, id) {
      var row := Find(rows, id).value;
      AddRow(c, others, row);
      assert forall m :: m in rows && m.id == id ==> m == row;
    } else if HasId(rows, t) {
      AddRow(c, others, Find(rows, t).value.(id := id));
    }
  }

  /** Without a server row the stub's row stays, as it was, under the confirmed id. */
  lemma SwapRenames(c: Collation, rows: seq<Message>, stub: Message, id: string)
    requires stub.id != id && Unique(rows)
    requires stub in rows && !HasId(rows, id)
    ensures stub.(id := id) in SwapId(c, rows, stub.id, id)
  {
    FindFacts(rows, stub.id);
    FindFacts(rows, id);
    RemoveFacts(c, rows, stub.id);
    RemoveFacts(c, Remove(rows, stub.id), id);
    var row := Find(rows, stub.id).value;
    assert IdOf(row) == IdOf(stub) && row == stub;
    AddRow(c, Remove(Remove(rows, stub.id), id), stub.(id := id));
  }

  lemma AddRow(c: Collation, others: seq<Message>, row: Message)
    requires Unique(others) && !HasId(others, row.id)
    ensures var next := SortMessagesByOrder(c, others + [row]);
      && Sorting.Sorted(NotAfter(c), next) && Unique(next)
      && (forall m :: m in next <==> m == row || m in others)
  {
    assert forall m :: m in others ==> m.id != row.id;
    SortUnique(c, others + [row]);
  }

  lemma LoadKeeps(c: Collation, rows: seq<Message>, initial: seq<Message>, temp: string, confirmed: string, p: Progress)
    requires Consistent(c, rows, temp, confirmed, p) && Legal(c, temp, confirmed, p, Load(initial))
    ensures Consistent(c, initial, temp, confirmed, Advance(temp, confirmed, p, Load(initial)))
  {
    LatestFacts(initial, confirmed);
  }

  /** An edit changes the contents of its row, and no row's place. */
  lemma EditKeeps(c: Collation, rows: seq<Message>, id: string, rest: string, temp: string, confirmed: string, p: Progress)
    requires Consistent(c, rows, temp, confirmed, p)
    ensures Consistent(c, Edited(rows, id, rest), temp, confirmed, Advance(temp, confirmed, p, Edit(id, rest)))
  {
    var next := Edited(rows, id, rest);
    EditMeaning(c, rows, id, rest);
    if p.latest.Some? {
      var i :| 0 <= i < |rows| && rows[i] == p.latest.value;
      assert next[i] in next;
    }
  }

  lemma EditMeaning(c: Collation, rows: seq<Message>, id: string, rest: string)
    requires Unique(rows)
    ensures var next := Edited(rows, id, rest);
      && Unique(next) && (Sorting.Sorted(NotAfter(c), rows) ==> Sorting.Sorted(NotAfter(c), next))
      && (forall other :: HasId(next, other) <==> HasId(rows, other))
    ensures var next := Edited(rows, id, rest);
      && |next| == |rows|
      && (forall i :: 0 <= i < |rows| && rows[i].id != id ==> next[i] == rows[i])
      && (forall i :: 0 <= i < |rows| && rows[i].id == id ==> next[i] == rows[i].(rest := rest))
  {
    var next := Edited(rows, id, rest);
    forall i, j | 0 <= i < j < |next| ensures IdOf(next[i]) != IdOf(next[j]) {
      assert IdOf(rows[i]) != IdOf(rows[j]);
    }
    if Sorting.Sorted(NotAfter(c), rows) {
      forall i, j | 0 <= i < j < |next| ensures NotAfter(c)(next[i], next[j]) {
        assert NotAfter(c)(rows[i], rows[j]);
      }
    }
    forall other ensures HasId(next, other) <==> HasId(rows, other) {
      if HasId(next, other) {
        var i :| 0 <= i < |next| && next[i].id == other;
        assert rows[i] in rows;
      }
      if HasId(rows, other) {
        var i :| 0 <= i < |rows| && rows[i].id == other;
        assert next[i] in next;
      }
    }
  }

  lemma StepKeepsConsistent(c: Collation, rows: seq<Message>, e: Event, temp: string, confirmed: string, p: Progress)
    requires Optimistic(temp) && !Optimistic(confirmed)
    requires Consistent(c, rows, temp, confirmed, p) && Legal(c, temp, confirmed, p, e)
    ensures Consistent(c, Step(c, rows, e), temp, confirmed, Advance(temp, confirmed, p, e))
  {
    match e
    case Begin(stub) => BeginKeeps(c, rows, stub, temp, confirmed, p);
    case Respond(t, id) =>
      SwapMeaning(c, rows, t, id);
      assert temp != id && t != confirmed;
      if HasId(SwapId(c, rows, t, id), temp) {
        var m :| m in SwapId(c, rows, t, id) && m.id == temp;
        assert m in rows;
      }
    case Fail(t) => RemoveFacts(c, rows, t);
    case Incoming(page) => IncomingKeeps(c, rows, page, temp, confirmed, p);
    case Restore(recovered) => RestoreKeeps(c, rows, recovered, temp, confirmed, p);
    case Load(initial) => LoadKeeps(c, rows, initial, temp, confirmed, p);
    case Edit(id, rest) => EditKeeps(c, rows, id, rest, temp, confirmed, p);
  }

  lemma {:induction false} RunConsistent(c: Collation, start: seq<Message>, events: seq<Event>, temp: string, confirmed: string)
    requires LegalRun(c, temp, confirmed, events)
    requires Sorting.Sorted(NotAfter(c), start) && Unique(start) && !HasId(start, temp)
    ensures Consistent(c, Rows(c, start, events), temp, confirmed, ProgressOf(temp, confirmed, events))
  {
    if events != [] {
      var k := |events| - 1;
      forall j | 0 <= j < k
        ensures Legal(c, temp, confirmed, ProgressOf(temp, confirmed, events[..k][..j]), events[..k][j])
      {
        assert events[..k][..j] == events[..j];
      }
      RunConsistent(c, start, events[..k], temp, confirmed);
      StepKeepsConsistent(c, Rows(c, start, events[..k]), events[k], temp, confirmed,
                          ProgressOf(temp, confirmed, events[..k]));
    }
  }

  // ------------------------------------------------------------------ main results

  /** Confluence: in every run, whatever the interleaving of stub, response, echoes, pages, restores, local
      edits, loads and other sends: once the message has arrived since the last load, or with it, it has
      exactly one row, and that row is the latest copy with the local edits since. Once the send has been
      answered the temporary id is gone, unless a later load brought the stub back. */
  lemma SendSettles(c: Collation, start: seq<Message>, events: seq<Event>, temp: string, confirmed: string)
    requires LegalRun(c, temp, confirmed, events)
    requires IsList(c, start) && !HasId(start, temp)
    ensures var rows, p := Rows(c, start, events), ProgressOf(temp, confirmed, events);
      && (p.latest.Some? ==> forall m :: m in rows && m.id == confirmed <==> m == p.latest.value)
      && (Answered(p) && !p.revived ==> !HasId(rows, temp))
  {
    RunConsistent(c, start, events, temp, confirmed);
  }

  /** A confirmed row is lost exactly by a load that lacks it, whatever else happens to it or to other sends. */
  lemma ConfirmedLostExactly(c: Collation, rows: seq<Message>, e: Event, temp: string, confirmed: string,
                             p: Progress, id: string)
    requires Unique(rows) && Legal(c, temp, confirmed, p, e) && !Optimistic(id) && HasId(rows, id)
    ensures !HasId(Step(c, rows, e), id) <==> e.Load? && !HasId(e.initial, id)
  {
    var m :| m in rows && m.id == id;
    match e
    case Begin(stub) => MergeKeepsConfirmed(c, rows, [stub], m);
    case Respond(t, other) => SwapMeaning(c, rows, t, other);
    case Fail(t) => RemoveFacts(c, rows, t);
    case Incoming(page) => MergeKeepsConfirmed(c, rows, page, m);
    case Restore(recovered) => MergeKeepsConfirmed(c, recovered, rows, m);
    case Load(_) =>
    case Edit(other, rest) => EditMeaning(c, rows, other, rest);
  }

  /** Where the rows come from, step by step: a merge keeps what stays of its copies, an answer touches the two ids
      of its send only, a failure takes its stub only, a load shows what it loaded, and an edit changes the
      other contents of its row only. */
  lemma StepRows(c: Collation, rows: seq<Message>, e: Event, m: Message)
    requires Unique(rows) && (e.Respond? ==> e.temp != e.confirmed)
    ensures e.Begin? ==> (m in Step(c, rows, e) <==> Stays(rows + NormalizeAll([e.stub]), m))
    ensures e.Incoming? ==> (m in Step(c, rows, e) <==> Stays(rows + NormalizeAll(e.page), m))
    ensures e.Restore? ==> (m in Step(c, rows, e) <==> Stays(e.recovered + NormalizeAll(rows), m))
    ensures e.Respond? && m.id != e.temp && m.id != e.confirmed ==> (m in Step(c, rows, e) <==> m in rows)
    ensures e.Fail? ==> (m in Step(c, rows, e) <==> m in rows && m.id != e.temp)
    ensures e.Load? ==> (m in Step(c, rows, e) <==> m in e.initial)
    ensures e.Edit? && m.id != e.id ==> (m in Step(c, rows, e) <==> m in rows)
    ensures e.Edit? && m.id == e.id ==>
      (m in Step(c, rows, e) <==> m.rest == e.rest && exists old_: Message :: old_ in rows && m == old_.(rest := e.rest))
  {
    match e
    case Begin(stub) => MergeMeaning(c, rows, [stub]);
    case Respond(t, id) => SwapMeaning(c, rows, t, id);
    case Fail(t) => RemoveRows(rows, t);
    case Incoming(page) => MergeMeaning(c, rows, page);
    case Restore(recovered) => MergeMeaning(c, recovered, rows);
    case Load(_) =>
    case Edit(id, rest) => EditRows(c, rows, id, rest, m);
  }

  lemma EditRows(c: Collation, rows: seq<Message>, id: string, rest: string, m: Message)
    requires Unique(rows)
    ensures m.id != id ==> (m in Edited(rows, id, rest) <==> m in rows)
    ensures m.id == id ==>
      (m in Edited(rows, id, rest) <==> m.rest == rest && exists old_: Message :: old_ in rows && m == old_.(rest := rest))
  {
    var next := Edited(rows, id, rest);
    EditMeaning(c, rows, id, rest);
    if m in next {
      var i :| 0 <= i < |next| && next[i] == m;
      assert rows[i] in rows;
    }
    if m.id != id && m in rows {
      var i :| 0 <= i < |rows| && rows[i] == m;
      assert next[i] in next;
    }
    if m.id == id && exists old_: Message :: old_ in rows && m == old_.(rest := rest) {
      var old_: Message :| old_ in rows && m == old_.(rest := rest);
      var i :| 0 <= i < |rows| && rows[i] == old_;
      assert next[i] in next;
    }
  }

  /** The copies that a merging event brings together, in the order in which the later one wins. */
  function Copies(rows: seq<Message>, e: Event): Option<seq<Message>> {
    match e
    case Begin(stub) => Some(rows + NormalizeAll([stub]))
    case Incoming(page) => Some(rows + NormalizeAll(page))
    case Restore(recovered) => Some(recovered + NormalizeAll(rows))
    case _ => None
  }

  /** The event merges, and some confirmed row then has this order. */
  ghost predicate TakesOrder(rows: seq<Message>, e: Event, order: int) {
    Copies(rows, e).Some? && OrderConfirmed(Copies(rows, e).value, order)
  }

  predicate BringsId(rows: seq<Message>, e: Event, id: string) {
    HasId(rows, id) || (e.Incoming? && HasId(e.page, id)) || (e.Restore? && HasId(e.recovered, id))
  }

  /** The event takes the row of the message under way off the list, and leaves no copy of the message. */
  ghost predicate TakesAway(rows: seq<Message>, e: Event, temp: string, confirmed: string, order: int) {
    if e.Load? then !HasId(e.initial, temp) && !HasId(e.initial, confirmed)
    else (e == Fail(temp) || TakesOrder(rows, e, order)) && !BringsId(rows, e, confirmed)
  }

  /** The message under way leaves the screen exactly when a load lacks both its ids; or its send fails, or a
      merge finds its provisional order taken by a confirmed row, while no copy of the message itself is
      there or comes with it. */
  lemma VanishesExactly(c: Collation, rows: seq<Message>, e: Event, temp: string, confirmed: string,
                        p: Progress, stub: Message)
    requires Optimistic(temp) && !Optimistic(confirmed)
    requires Unique(rows) && p.phase == InFlight && Legal(c, temp, confirmed, p, e)
    requires stub in rows && stub.id == temp
    ensures Hidden(Step(c, rows, e), temp, confirmed) <==> TakesAway(rows, e, temp, confirmed, stub.order)
  {
    match e
    case Begin(other) => BeginVanishes(c, rows, other, confirmed, stub);
    case Respond(t, id) => RespondVanishes(c, rows, t, id, confirmed, stub);
    case Fail(t) => FailVanishes(c, rows, t, confirmed, stub);
    case Incoming(page) => IncomingVanishes(c, rows, page, confirmed, stub);
    case Restore(recovered) => RestoreVanishes(c, rows, recovered, confirmed, stub);
    case Load(_) =>
    case Edit(id, rest) => EditVanishes(c, rows, id, rest, confirmed, stub);
  }

  ghost predicate Hidden(rows: seq<Message>, temp: string, confirmed: string) {
    !HasId(rows, temp) && !HasId(rows, confirmed)
  }

  lemma BeginVanishes(c: Collation, rows: seq<Message>, other: Message, confirmed: string, stub: Message)
    requires Optimistic(stub.id) && !Optimistic(confirmed) && Unique(rows) && stub in rows
    requires Optimistic(other.id) && other.id != stub.id
    ensures Hidden(Merge(c, rows, [other]), stub.id, confirmed)
      <==> TakesAway(rows, Begin(other), stub.id, confirmed, stub.order)
  {
    assert !HasId([other], stub.id) && !HasId([other], confirmed);
    ArrivalVanishes(c, rows, [other], confirmed, stub);
  }

  lemma IncomingVanishes(c: Collation, rows: seq<Message>, page: seq<Message>, confirmed: string, stub: Message)
    requires Optimistic(stub.id) && !Optimistic(confirmed) && Unique(rows) && stub in rows && !HasId(page, stub.id)
    ensures Hidden(Merge(c, rows, page), stub.id, confirmed)
      <==> TakesAway(rows, Incoming(page), stub.id, confirmed, stub.order)
  {
    ArrivalVanishes(c, rows, page, confirmed, stub);
  }

  lemma RespondVanishes(c: Collation, rows: seq<Message>, t: string, id: string, confirmed: string, stub: Message)
    requires Unique(rows) && stub in rows && Optimistic(t) && !Optimistic(id) && Optimistic(stub.id)
    requires t == stub.id <==> id == confirmed
    ensures Hidden(SwapId(c, rows, t, id), stub.id, confirmed)
      <==> TakesAway(rows, Respond(t, id), stub.id, confirmed, stub.order)
  {
    SwapMeaning(c, rows, t, id);
    if t != stub.id {
      assert stub in SwapId(c, rows, t, id);
    }
  }

  lemma RestoreVanishes(c: Collation, rows: seq<Message>, recovered: seq<Message>, confirmed: string, stub: Message)
    requires Optimistic(stub.id) && !Optimistic(confirmed) && Unique(rows) && stub in rows
    ensures Hidden(Merge(c, recovered, rows), stub.id, confirmed)
      <==> TakesAway(rows, Restore(recovered), stub.id, confirmed, stub.order)
  {
    StubStaysUnder(c, recovered, rows, stub);
    MergeHasConfirmed(c, recovered, rows, confirmed);
  }

  lemma FailVanishes(c: Collation, rows: seq<Message>, t: string, confirmed: string, stub: Message)
    requires Unique(rows) && stub in rows && Optimistic(t) && !Optimistic(confirmed)
    ensures Hidden(Remove(rows, t), stub.id, confirmed)
      <==> TakesAway(rows, Fail(t), stub.id, confirmed, stub.order)
  {
    RemoveFacts(c, rows, t);
    assert HasId(Remove(rows, t), stub.id) <==> t != stub.id;
    assert HasId(Remove(rows, t), confirmed) <==> HasId(rows, confirmed);
  }

  lemma EditVanishes(c: Collation, rows: seq<Message>, id: string, rest: string, confirmed: string, stub: Message)
    requires Unique(rows) && stub in rows
    ensures Hidden(Edited(rows, id, rest), stub.id, confirmed)
      <==> TakesAway(rows, Edit(id, rest), stub.id, confirmed, stub.order)
  {
    EditMeaning(c, rows, id, rest);
    assert HasId(Edited(rows, id, rest), stub.id);
  }

  lemma ArrivalVanishes(c: Collation, rows: seq<Message>, page: seq<Message>, confirmed: string, stub: Message)
    requires Optimistic(stub.id) && !Optimistic(confirmed)
    requires Unique(rows) && stub in rows && !HasId(page, stub.id)
    ensures var next := Merge(c, rows, page);
      !HasId(next, stub.id) && !HasId(next, confirmed) <==>
        OrderConfirmed(rows + NormalizeAll(page), stub.order) && !HasId(rows, confirmed) && !HasId(page, confirmed)
  {
    NormalizedPage(page, stub.id);
    StubStays(c, rows, page, stub);
    MergeHasConfirmed(c, rows, page, confirmed);
  }

  /** A merge that does not bring the stub again keeps it exactly when its order is not confirmed. */
  lemma StubStays(c: Collation, rows: seq<Message>, page: seq<Message>, stub: Message)
    requires Unique(rows) && stub in rows && Optimistic(stub.id)
    requires Latest(NormalizeAll(page), stub.id) == None
    ensures HasId(Merge(c, rows, page), stub.id) <==> !OrderConfirmed(rows + NormalizeAll(page), stub.order)
  {
    LatestInUnique(rows, stub);
    LatestAppend(rows, NormalizeAll(page), stub.id);
    OnlyCopyStays(c, rows, page, stub);
  }

  lemma StubStaysUnder(c: Collation, recovered: seq<Message>, rows: seq<Message>, stub: Message)
    requires Unique(rows) && stub in rows && Optimistic(stub.id)
    ensures HasId(Merge(c, recovered, rows), stub.id) <==> !OrderConfirmed(recovered + NormalizeAll(rows), stub.order)
  {
    LatestInUnique(rows, stub);
    NormalizedRow(rows, stub);
    LatestAppend(recovered, NormalizeAll(rows), stub.id);
    OnlyCopyStays(c, recovered, rows, Normalize(stub));
  }

  lemma OnlyCopyStays(c: Collation, prev: seq<Message>, incoming: seq<Message>, copy: Message)
    requires Optimistic(copy.id) && Latest(prev + NormalizeAll(incoming), copy.id) == Some(copy)
    ensures HasId(Merge(c, prev, incoming), copy.id) <==> !OrderConfirmed(prev + NormalizeAll(incoming), copy.order)
  {
    var all := prev + NormalizeAll(incoming);
    MergeMeaning(c, prev, incoming);
    if Stays(all, copy) {
      assert copy in Merge(c, prev, incoming);
    }
  }

  /** A confirmed id is in a merge exactly when one of the lists has it. */
  lemma MergeHasConfirmed(c: Collation, prev: seq<Message>, incoming: seq<Message>, id: string)
    requires !Optimistic(id)
    ensures HasId(Merge(c, prev, incoming), id) <==> HasId(prev, id) || HasId(incoming, id)
  {
    if HasId(Merge(c, prev, incoming), id) {
      MergeAddsNoTemp(c, prev, incoming, id);
    }
    if HasId(prev, id) || HasId(incoming, id) {
      var m :| m in prev + incoming && m.id == id;
      MergeKeepsConfirmed(c, prev, incoming, m);
    }
  }

  function TakenOrderRun(stub: Message, row: Message, confirmed: string): seq<Event> {
    [Begin(stub), Incoming([row]), Respond(stub.id, confirmed)]
  }

  /** Runs in which that happens: another message arrives with the stub's provisional order, and the message
      stays out of the list also when its send succeeds, until its echo or a page brings it. */
  lemma TakenOrderHidesMessage(c: Collation, stub: Message, row: Message, confirmed: string)
    requires Optimistic(stub.id) && !Optimistic(row.id) && !Optimistic(confirmed)
    requires row.id != confirmed && row.order == stub.order
    ensures var events := TakenOrderRun(stub, row, confirmed);
      && LegalRun(c, stub.id, confirmed, events)
      && !HasId(Rows(c, [], events), stub.id) && !HasId(Rows(c, [], events), confirmed)
  {
    TakenOrderIsLegal(c, stub, row, confirmed);
    TakenOrderRows(c, stub, row, confirmed);
    RowHidesStub(c, stub, row, confirmed);
  }

  lemma TakenOrderRows(c: Collation, stub: Message, row: Message, confirmed: string)
    ensures Rows(c, [], TakenOrderRun(stub, row, confirmed))
      == SwapId(c, Merge(c, Merge(c, [], [stub]), [row]), stub.id, confirmed)
  {
    var one, two := [Begin(stub)], [Begin(stub), Incoming([row])];
    assert [] + [Begin(stub)] == one && one + [Incoming([row])] == two;
    assert two + [Respond(stub.id, confirmed)] == TakenOrderRun(stub, row, confirmed);
    RowsStep(c, [], [], Begin(stub));
    RowsStep(c, [], one, Incoming([row]));
    RowsStep(c, [], two, Respond(stub.id, confirmed));
  }

  lemma RowsStep(c: Collation, start: seq<Message>, events: seq<Event>, e: Event)
    ensures Rows(c, start, events + [e]) == Step(c, Rows(c, start, events), e)
  {
    assert (events + [e])[..|events|] == events;
  }

  lemma TakenOrderIsLegal(c: Collation, stub: Message, row: Message, confirmed: string)
    requires Optimistic(stub.id) && !Optimistic(row.id) && !Optimistic(confirmed)
    ensures LegalRun(c, stub.id, confirmed, TakenOrderRun(stub, row, confirmed))
  {
    var events := TakenOrderRun(stub, row, confirmed);
    assert events[..0] == [] && events[..1] == [Begin(stub)] && events[..2] == [Begin(stub), Incoming([row])];
    assert events[..2][..1] == [Begin(stub)] && events[..1][..0] == [];
    assert ProgressOf(stub.id, confirmed, events[..1]).phase == InFlight;
    assert ProgressOf(stub.id, confirmed, events[..2]).phase == InFlight;
  }

  lemma RowHidesStub(c: Collation, stub: Message, row: Message, confirmed: string)
    requires Optimistic(stub.id) && !Optimistic(row.id) && !Optimistic(confirmed)
    requires row.id != confirmed && row.order == stub.order
    ensures var rows := Merge(c, Merge(c, [], [stub]), [row]);
      !HasId(rows, stub.id) && !HasId(rows, confirmed) && SwapId(c, rows, stub.id, confirmed) == rows
  {
    var one := Merge(c, [], [stub]);
    var two := Merge(c, one, [row]);
    StubIsShown(c, stub);
    MergeMeaning(c, [], [stub]);
    RowConfirms(one, row);
    ArrivalVanishes(c, one, [row], confirmed, Normalize(stub));
    MergeHasConfirmed(c, [], [stub], confirmed);
    FindFacts(two, stub.id);
    FindFacts(two, confirmed);
  }

  lemma StubIsShown(c: Collation, stub: Message)
    requires Optimistic(stub.id)
    ensures Normalize(stub) in Merge(c, [], [stub])
  {
    var all := [] + NormalizeAll([stub]);
    assert all == [Normalize(stub)] && all[..0] == [];
    MergeMeaning(c, [], [stub]);
    forall m: Message | m in all ensures m == Normalize(stub) {
    }
    assert Stays(all, Normalize(stub));
  }

  lemma RowConfirms(rows: seq<Message>, row: Message)
    requires !Optimistic(row.id)
    ensures OrderConfirmed(rows + NormalizeAll([row]), row.order)
  {
    var all := rows + NormalizeAll([row]);
    assert all[|all| - 1] == Normalize(row);
    assert Latest(all, row.id) == Some(Normalize(row));
  }

  // -------------------------------------------------------------- what a load takes or brings

  lemma ProgressStep(temp: string, confirmed: string, events: seq<Event>, e: Event)
    ensures ProgressOf(temp, confirmed, events + [e]) == Advance(temp, confirmed, ProgressOf(temp, confirmed, events), e)
  {
    assert (events + [e])[..|events|] == events;
  }

  lemma LegalStep(c: Collation, temp: string, confirmed: string, events: seq<Event>, e: Event)
    requires LegalRun(c, temp, confirmed, events) && Legal(c, temp, confirmed, ProgressOf(temp, confirmed, events), e)
    ensures LegalRun(c, temp, confirmed, events + [e])
  {
    var longer := events + [e];
    forall k | 0 <= k < |longer|
      ensures Legal(c, temp, confirmed, ProgressOf(temp, confirmed, longer[..k]), longer[k])
    {
      if k < |events| {
        assert longer[..k] == events[..k];
      } else {
        assert longer[..k] == events;
      }
    }
  }

  function EchoedRun(stub: Message, echo: Message): seq<Event> {
    [Begin(stub)] + [Respond(stub.id, echo.id)] + [Incoming([echo])]
  }

  lemma EchoedIsLegal(c: Collation, stub: Message, echo: Message)
    requires Optimistic(stub.id) && !Optimistic(echo.id)
    ensures LegalRun(c, stub.id, echo.id, EchoedRun(stub, echo))
    ensures var p := ProgressOf(stub.id, echo.id, EchoedRun(stub, echo));
      p.phase == Responded && p.latest == Some(Normalize(echo))
  {
    var temp, id := stub.id, echo.id;
    var one := [Begin(stub)];
    var two := one + [Respond(temp, id)];
    assert [] + [Begin(stub)] == one;
    assert LegalRun(c, temp, id, []);
    ProgressStep(temp, id, [], Begin(stub));
    ProgressStep(temp, id, one, Respond(temp, id));
    ProgressStep(temp, id, two, Incoming([echo]));
    assert NormalizeAll([echo]) == [Normalize(echo)];
    LegalStep(c, temp, id, [], Begin(stub));
    LegalStep(c, temp, id, one, Respond(temp, id));
    LegalStep(c, temp, id, two, Incoming([echo]));
  }

  /** A thread opened from the cache can be written to while its catch-up is awaited. In these runs a message is
      sent, answered and echoed in the meantime; then the catch-up, which found nothing newer than the cached
      rows, replaces the list, and the message has no row at all. */
  lemma LoadHidesMessage(c: Collation, cached: seq<Message>, stub: Message, echo: Message)
    requires Optimistic(stub.id) && !Optimistic(echo.id)
    requires IsList(c, cached) && !HasId(cached, stub.id) && !HasId(cached, echo.id)
    ensures var events := EchoedRun(stub, echo) + [Load(cached)];
      && LegalRun(c, stub.id, echo.id, events)
      && Normalize(echo) in Rows(c, cached, EchoedRun(stub, echo))
      && !HasId(Rows(c, cached, events), stub.id) && !HasId(Rows(c, cached, events), echo.id)
  {
    var run := EchoedRun(stub, echo);
    EchoedIsLegal(c, stub, echo);
    SendSettles(c, cached, run, stub.id, echo.id);
    LegalStep(c, stub.id, echo.id, run, Load(cached));
    RowsStep(c, cached, run, Load(cached));
  }

  function AwayRun(stub: Message, other: seq<Message>, confirmed: string, cached: seq<Message>): seq<Event> {
    [Begin(stub)] + [Load(other)] + [Respond(stub.id, confirmed)] + [Load(cached)]
  }

  /** The session cache keeps the stubs of a thread that is left. In these runs another thread is shown when the
      response arrives; back in the first one, the cached stub is shown again although the send has succeeded. */
  lemma LoadRevivesStub(c: Collation, start: seq<Message>, stub: Message, other: seq<Message>, confirmed: string)
    requires Optimistic(stub.id) && !Optimistic(confirmed)
    requires IsList(c, other) && !HasId(other, stub.id)
    requires IsList(c, start) && !OrderConfirmed(start + NormalizeAll([stub]), stub.order)
    ensures var cached := Merge(c, start, [stub]);
      var events := AwayRun(stub, other, confirmed, cached);
      && LegalRun(c, stub.id, confirmed, events)
      && ProgressOf(stub.id, confirmed, events).phase == Responded
      && HasId(Rows(c, start, events), stub.id)
  {
    var temp, cached := stub.id, Merge(c, start, [stub]);
    var one := [Begin(stub)];
    var two := one + [Load(other)];
    var three := two + [Respond(temp, confirmed)];
    MergeMeaning(c, start, [stub]);
    StubIsMerged(c, start, stub);
    assert [] + [Begin(stub)] == one;
    assert LegalRun(c, temp, confirmed, []);
    ProgressStep(temp, confirmed, [], Begin(stub));
    ProgressStep(temp, confirmed, one, Load(other));
    ProgressStep(temp, confirmed, two, Respond(temp, confirmed));
    ProgressStep(temp, confirmed, three, Load(cached));
    LegalStep(c, temp, confirmed, [], Begin(stub));
    LegalStep(c, temp, confirmed, one, Load(other));
    LegalStep(c, temp, confirmed, two, Respond(temp, confirmed));
    LegalStep(c, temp, confirmed, three, Load(cached));
    RowsStep(c, start, three, Load(cached));
  }

  lemma StubIsMerged(c: Collation, start: seq<Message>, stub: Message)
    requires Optimistic(stub.id) && !OrderConfirmed(start + NormalizeAll([stub]), stub.order)
    ensures HasId(Merge(c, start, [stub]), stub.id)
  {
    var all := start + NormalizeAll([stub]);
    assert all[|all| - 1] == Normalize(stub);
    OnlyCopyStays(c, start, [stub], Normalize(stub));
  }
}
