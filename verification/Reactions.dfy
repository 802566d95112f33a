/** Reactions of a thread: absolute-state events replace the entry of one (order, emoji). */
module Reactions {
  import opened Base
  import JsMap
  import Sorting

  datatype Entry = Entry(chainSeq: int, emoji: string, count: int, reactors: seq<string>)

  datatype Event = Event(groupId: string, chainSeq: int, emoji: string, count: int, reactors: seq<string>)

  type Board = map<int, seq<Entry>>

  /** Different emoji can rank equal: a variation selector is ignored. */
  function ByEmoji(c: Collation): (Entry, Entry) -> bool {
    (a: Entry, b: Entry) => c(a.emoji) <= c(b.emoji)
  }

  /** The entries with another emoji, in order. */
  function Others(s: seq<Entry>, emoji: string): seq<Entry> {
    if s == [] then []
    else
      var front, last := Others(s[..|s| - 1], emoji), s[|s| - 1];
      if last.emoji == emoji then front else front + [last]
  }

  function ListAt(b: Board, order: int): seq<Entry> {
    if order in b then b[order] else []
  }

  function ToEntry(e: Event): Entry {
    Entry(e.chainSeq, e.emoji, e.count, e.reactors)
  }

  function SetList(b: Board, order: int, entries: seq<Entry>): Board {
    if entries == [] then b - {order} else b[order := entries]
  }

  function NewList(c: Collation, entries: seq<Entry>, e: Event): seq<Entry> {
    var others := Others(entries, e.emoji);
    Sorting.Sort(ByEmoji(c), if e.count > 0 then others + [ToEntry(e)] else others)
  }

  function Apply(c: Collation, prev: Board, e: Event): Board {
    SetList(prev, e.chainSeq, NewList(c, ListAt(prev, e.chainSeq), e))
  }

  function After(c: Collation, start: Board, events: seq<Event>): Board {
    if events == [] then start
    else Apply(c, After(c, start, events[..|events| - 1]), events[|events| - 1])
  }

  // ------------------------------------------------------ filtering and stable sorting

  lemma {:induction false} OthersFacts(s: seq<Entry>, emoji: string)
    ensures forall x :: x in Others(s, emoji) <==> x in s && x.emoji != emoji
  {
    if s != [] {
      OthersFacts(s[..|s| - 1], emoji);
      assert s == s[..|s| - 1] + [s[|s| - 1]];
    }
  }

  lemma {:induction false} OthersNone(s: seq<Entry>, emoji: string)
    requires forall x :: x in s ==> x.emoji != emoji
    ensures Others(s, emoji) == s
  {
    if s != [] {
      OthersNone(s[..|s| - 1], emoji);
      assert s == s[..|s| - 1] + [s[|s| - 1]];
      assert s[|s| - 1] in s;
    }
  }

  lemma {:induction false} OthersAppend(a: seq<Entry>, b: seq<Entry>, emoji: string)
    ensures Others(a + b, emoji) == Others(a, emoji) + Others(b, emoji)
  {
    if b == [] {
      assert a + b == a;
    } else {
      OthersAppend(a, b[..|b| - 1], emoji);
      assert (a + b)[..|a + b| - 1] == a + b[..|b| - 1];
    }
  }

  lemma {:induction false} OthersSwap(s: seq<Entry>, m: string, n: string)
    ensures Others(Others(s, m), n) == Others(Others(s, n), m)
  {
    if s != [] {
      OthersSwap(s[..|s| - 1], m, n);
    }
  }

  lemma OthersCons(h: Entry, t: seq<Entry>, emoji: string)
    ensures Others([h] + t, emoji) == if h.emoji == emoji then Others(t, emoji) else [h] + Others(t, emoji)
  {
    OthersAppend([h], t, emoji);
    assert [h][..0] == [];
    assert [] + Others(t, emoji) == Others(t, emoji);
  }

  lemma InsertCons(c: Collation, h: Entry, t: seq<Entry>, x: Entry)
    ensures Sorting.Insert(ByEmoji(c), [h] + t, x) ==
      if ByEmoji(c)(h, x) then [h] + Sorting.Insert(ByEmoji(c), t, x) else [x] + ([h] + t)
  {
    assert ([h] + t)[1..] == t;
  }

  /** Removing entries commutes with one insertion. */
  lemma {:induction false} OthersInsert(c: Collation, s: seq<Entry>, x: Entry, emoji: string)
    requires Sorting.Sorted(ByEmoji(c), s)
    ensures Others(Sorting.Insert(ByEmoji(c), s, x), emoji) ==
      if x.emoji == emoji then Others(s, emoji) else Sorting.Insert(ByEmoji(c), Others(s, emoji), x)
  {
    if s != [] && ByEmoji(c)(s[0], x) {
      OthersInsert(c, s[1..], x, emoji);
      OthersInsertBehind(c, s[0], s[1..], x, emoji);
      assert s == [s[0]] + s[1..];
    } else {
      OthersInsertFirst(c, s, x, emoji);
    }
  }

  lemma OthersInsertFirst(c: Collation, s: seq<Entry>, x: Entry, emoji: string)
    requires forall y :: y in s ==> !ByEmoji(c)(y, x)
    ensures Others(Sorting.Insert(ByEmoji(c), s, x), emoji) ==
      if x.emoji == emoji then Others(s, emoji) else Sorting.Insert(ByEmoji(c), Others(s, emoji), x)
  {
    InsertFirst(c, s, x);
    OthersCons(x, s, emoji);
    OthersFacts(s, emoji);
    InsertFirst(c, Others(s, emoji), x);
  }

  lemma OthersInsertBehind(c: Collation, h: Entry, t: seq<Entry>, x: Entry, emoji: string)
    requires ByEmoji(c)(h, x)
    requires Others(Sorting.Insert(ByEmoji(c), t, x), emoji) ==
      if x.emoji == emoji then Others(t, emoji) else Sorting.Insert(ByEmoji(c), Others(t, emoji), x)
    ensures Others(Sorting.Insert(ByEmoji(c), [h] + t, x), emoji) ==
      if x.emoji == emoji then Others([h] + t, emoji) else Sorting.Insert(ByEmoji(c), Others([h] + t, emoji), x)
  {
    InsertCons(c, h, t, x);
    OthersCons(h, t, emoji);
    OthersCons(h, Sorting.Insert(ByEmoji(c), t, x), emoji);
    InsertCons(c, h, Others(t, emoji), x);
  }

  lemma InsertFirst(c: Collation, s: seq<Entry>, x: Entry)
    requires forall y :: y in s ==> !ByEmoji(c)(y, x)
    ensures Sorting.Insert(ByEmoji(c), s, x) == [x] + s
  {
  }

  lemma ByEmojiPreorder(c: Collation)
    ensures Sorting.Preorder(ByEmoji(c))
  {
  }

  /** Removing entries commutes with the stable sort. */
  lemma {:induction false} OthersSort(c: Collation, s: seq<Entry>, emoji: string)
    ensures Others(Sorting.Sort(ByEmoji(c), s), emoji) == Sorting.Sort(ByEmoji(c), Others(s, emoji))
  {
    if s != [] {
      var k := |s| - 1;
      OthersSort(c, s[..k], emoji);
      ByEmojiPreorder(c);
      Sorting.SortSorted(ByEmoji(c), s[..k]);
      OthersInsert(c, Sorting.Sort(ByEmoji(c), s[..k]), s[k], emoji);
      var front := Others(s[..k], emoji);
      assert (front + [s[k]])[..|front|] == front;
    }
  }

  lemma SortSnoc(c: Collation, s: seq<Entry>, x: Entry)
    ensures Sorting.Sort(ByEmoji(c), s + [x]) == Sorting.Insert(ByEmoji(c), Sorting.Sort(ByEmoji(c), s), x)
  {
    assert (s + [x])[..|s|] == s;
  }

  lemma SortTwice(c: Collation, s: seq<Entry>)
    ensures Sorting.Sort(ByEmoji(c), Sorting.Sort(ByEmoji(c), s)) == Sorting.Sort(ByEmoji(c), s)
  {
    ByEmojiPreorder(c);
    Sorting.SortSorted(ByEmoji(c), s);
    Sorting.SortFixed(ByEmoji(c), Sorting.Sort(ByEmoji(c), s));
  }

  /** Both forms of the new list: the sorted others, with or without the new entry inserted. */
  lemma NewListForm(c: Collation, s: seq<Entry>, e: Event)
    ensures var rest := Sorting.Sort(ByEmoji(c), Others(s, e.emoji));
      NewList(c, s, e) == if e.count > 0 then Sorting.Insert(ByEmoji(c), rest, ToEntry(e)) else rest
  {
    SortSnoc(c, Others(s, e.emoji), ToEntry(e));
  }

  // ----------------------------------------------------------------- replay and order

  lemma OthersOfNew(c: Collation, s: seq<Entry>, e: Event, emoji: string)
    ensures var rest := Sorting.Sort(ByEmoji(c), Others(Others(s, e.emoji), emoji));
      Others(NewList(c, s, e), emoji) ==
        if e.count > 0 && e.emoji != emoji then Sorting.Insert(ByEmoji(c), rest, ToEntry(e)) else rest
  {
    NewListForm(c, s, e);
    ByEmojiPreorder(c);
    Sorting.SortSorted(ByEmoji(c), Others(s, e.emoji));
    OthersSort(c, Others(s, e.emoji), emoji);
    OthersInsert(c, Sorting.Sort(ByEmoji(c), Others(s, e.emoji)), ToEntry(e), emoji);
  }

  lemma NewListTwice(c: Collation, s: seq<Entry>, e: Event)
    ensures NewList(c, NewList(c, s, e), e) == NewList(c, s, e)
  {
    var once, kept := NewList(c, s, e), Others(s, e.emoji);
    OthersOfNew(c, s, e, e.emoji);
    OthersFacts(s, e.emoji);
    OthersNone(kept, e.emoji);
    assert Others(once, e.emoji) == Sorting.Sort(ByEmoji(c), kept);
    SortTwice(c, kept);
    NewListForm(c, s, e);
    NewListForm(c, once, e);
  }

  /** Replaying an event is a no-op, whatever the board was. */
  lemma ReplayIsNoOp(c: Collation, b: Board, e: Event)
    ensures Apply(c, Apply(c, b, e), e) == Apply(c, b, e)
  {
    NewListTwice(c, ListAt(b, e.chainSeq), e);
    OnOneList(c, b, e, e);
  }

  /** Two insertions of different entries commute exactly when their ranks differ. */
  lemma {:induction false} InsertTwice(c: Collation, s: seq<Entry>, x: Entry, y: Entry)
    requires x != y && Sorting.Sorted(ByEmoji(c), s)
    ensures Both(c, s, x, y) == Both(c, s, y, x) <==> c(x.emoji) != c(y.emoji)
  {
    var le := ByEmoji(c);
    if s == [] {
      OntoEmpty(c, x, y);
      OntoEmpty(c, y, x);
      assert [x, y][0] != [y, x][0];
    } else {
      InsertTwice(c, s[1..], x, y);
      InsertTwiceStep(c, s, x, y);
      InsertTwiceStep(c, s, y, x);
      if le(s[0], x) && le(s[0], y) {
        assert Both(c, s, x, y)[1..] == Both(c, s[1..], x, y);
        assert Both(c, s, y, x)[1..] == Both(c, s[1..], y, x);
      } else if !le(s[0], x) && !le(s[0], y) {
        BeforeAll(c, s, x, y);
        BeforeAll(c, s, y, x);
        assert ([x, y] + s)[0] == x && ([y, x] + s)[0] == y;
      } else if le(s[0], x) {
        assert [y] + ([s[0]] + Sorting.Insert(le, s[1..], x)) == [y, s[0]] + Sorting.Insert(le, s[1..], x);
      } else {
        assert [x] + ([s[0]] + Sorting.Insert(le, s[1..], y)) == [x, s[0]] + Sorting.Insert(le, s[1..], y);
      }
    }
  }

  function Both(c: Collation, s: seq<Entry>, x: Entry, y: Entry): seq<Entry> {
    Sorting.Insert(ByEmoji(c), Sorting.Insert(ByEmoji(c), s, x), y)
  }

  lemma OntoEmpty(c: Collation, x: Entry, y: Entry)
    ensures Both(c, [], x, y) == if ByEmoji(c)(x, y) then [x, y] else [y, x]
  {
    var one := [x];
    assert one[1..] == [];
    assert Sorting.Insert(ByEmoji(c), [], x) == one && Sorting.Insert(ByEmoji(c), one[1..], y) == [y];
    assert [x] + [y] == [x, y] && [y] + one == [y, x];
  }

  lemma BeforeAll(c: Collation, s: seq<Entry>, x: Entry, y: Entry)
    requires s != [] && !ByEmoji(c)(s[0], x) && !ByEmoji(c)(s[0], y)
    ensures Both(c, s, x, y) == if ByEmoji(c)(x, y) then [x, y] + s else [y, x] + s
  {
    PutFirst(c, s, x);
    PutFirst(c, s, y);
    InsertCons(c, x, s, y);
    Pairs(x, y, s);
  }

  lemma PutFirst(c: Collation, s: seq<Entry>, x: Entry)
    requires s != [] && !ByEmoji(c)(s[0], x)
    ensures Sorting.Insert(ByEmoji(c), s, x) == [x] + s
  {
  }

  lemma Pairs(x: Entry, y: Entry, s: seq<Entry>)
    ensures [x] + ([y] + s) == [x, y] + s && [y] + ([x] + s) == [y, x] + s
  {
  }

  lemma InsertTwiceStep(c: Collation, s: seq<Entry>, x: Entry, y: Entry)
    requires s != []
    ensures var le := ByEmoji(c);
      Both(c, s, x, y) ==
              if le(s[0], x) then
                (if le(s[0], y) then [s[0]] + Both(c, s[1..], x, y)
                 else [y, s[0]] + Sorting.Insert(le, s[1..], x))
              else
                (if le(x, y) then [x] + Sorting.Insert(le, s, y) else [y, x] + s)
  {
    var le := ByEmoji(c);
    if le(s[0], x) {
      assert ([s[0]] + Sorting.Insert(le, s[1..], x))[1..] == Sorting.Insert(le, s[1..], x);
    } else {
      assert ([x] + s)[1..] == s;
    }
  }

  /** The list after two events on one order with different emoji. */
  lemma TwoEvents(c: Collation, s: seq<Entry>, d: Event, e: Event)
    requires d.emoji != e.emoji
    ensures var rest := Sorting.Sort(ByEmoji(c), Others(Others(s, d.emoji), e.emoji));
      var first := if d.count > 0 then Sorting.Insert(ByEmoji(c), rest, ToEntry(d)) else rest;
      NewList(c, NewList(c, s, d), e) ==
        if e.count > 0 then Sorting.Insert(ByEmoji(c), first, ToEntry(e)) else first
  {
    OthersOfNew(c, s, d, e.emoji);
    NewListForm(c, NewList(c, s, d), e);
    var rest := Sorting.Sort(ByEmoji(c), Others(Others(s, d.emoji), e.emoji));
    ByEmojiPreorder(c);
    Sorting.SortSorted(ByEmoji(c), Others(Others(s, d.emoji), e.emoji));
    Sorting.InsertSorted(ByEmoji(c), rest, ToEntry(d));
    Sorting.SortFixed(ByEmoji(c), Others(NewList(c, s, d), e.emoji));
  }

  /** Events on different keys commute, exactly unless both enter an emoji on the same order
      and the collation ranks the two emoji equal. */
  lemma CommuteExactly(c: Collation, b: Board, d: Event, e: Event)
    requires d.chainSeq != e.chainSeq || d.emoji != e.emoji
    ensures Apply(c, Apply(c, b, d), e) == Apply(c, Apply(c, b, e), d) <==>
      !(d.chainSeq == e.chainSeq && d.count > 0 && e.count > 0 && c(d.emoji) == c(e.emoji))
  {
    if d.chainSeq == e.chainSeq {
      var s := ListAt(b, d.chainSeq);
      var de, ed := NewList(c, NewList(c, s, d), e), NewList(c, NewList(c, s, e), d);
      OnOneList(c, b, d, e);
      OnOneList(c, b, e, d);
      TwoEvents(c, s, d, e);
      TwoEvents(c, s, e, d);
      OthersSwap(s, d.emoji, e.emoji);
      ByEmojiPreorder(c);
      Sorting.SortSorted(ByEmoji(c), Others(Others(s, d.emoji), e.emoji));
      InsertTwice(c, Sorting.Sort(ByEmoji(c), Others(Others(s, d.emoji), e.emoji)), ToEntry(d), ToEntry(e));
      SetListInjective(b, d.chainSeq, de, ed);
    } else {
      OnTwoLists(c, b, d, e);
    }
  }

  lemma OnOneList(c: Collation, b: Board, d: Event, e: Event)
    requires d.chainSeq == e.chainSeq
    ensures Apply(c, Apply(c, b, d), e) ==
      SetList(b, d.chainSeq, NewList(c, NewList(c, ListAt(b, d.chainSeq), d), e))
  {
    var first := NewList(c, ListAt(b, d.chainSeq), d);
    assert ListAt(SetList(b, d.chainSeq, first), d.chainSeq) == first;
    SetListTwice(b, d.chainSeq, first, NewList(c, first, e));
  }

  lemma SetListTwice(b: Board, order: int, s: seq<Entry>, t: seq<Entry>)
    ensures SetList(SetList(b, order, s), order, t) == SetList(b, order, t)
  {
  }

  lemma SetListInjective(b: Board, order: int, s: seq<Entry>, t: seq<Entry>)
    ensures SetList(b, order, s) == SetList(b, order, t) <==> s == t
  {
    assert ListAt(SetList(b, order, s), order) == s && ListAt(SetList(b, order, t), order) == t;
  }

  lemma OnTwoLists(c: Collation, b: Board, d: Event, e: Event)
    requires d.chainSeq != e.chainSeq
    ensures Apply(c, Apply(c, b, d), e) == Apply(c, Apply(c, b, e), d)
  {
    var s, t := NewList(c, ListAt(b, d.chainSeq), d), NewList(c, ListAt(b, e.chainSeq), e);
    assert ListAt(SetList(b, d.chainSeq, s), e.chainSeq) == ListAt(b, e.chainSeq);
    assert ListAt(SetList(b, e.chainSeq, t), d.chainSeq) == ListAt(b, d.chainSeq);
    assert SetList(SetList(b, d.chainSeq, s), e.chainSeq, t) == SetList(SetList(b, e.chainSeq, t), d.chainSeq, s);
  }

  // ------------------------------------------------------------- last writer wins

  function EmojiOf(x: Entry): string {
    x.emoji
  }

  ghost predicate DistinctEmoji(s: seq<Entry>) {
    JsMap.Unique(EmojiOf, s)
  }

  /** Lists are sorted by emoji, without duplicates, never empty, and filed under their order. */
  ghost predicate WellFormed(c: Collation, b: Board) {
    forall order :: order in b ==> ListOk(c, order, b[order])
  }

  ghost predicate ListOk(c: Collation, order: int, s: seq<Entry>) {
    && s != []
    && (forall i, j :: 0 <= i < j < |s| ==> c(s[i].emoji) <= c(s[j].emoji))
    && DistinctEmoji(s)
    && forall x :: x in s ==> x.chainSeq == order && x.count > 0
  }

  function Ranked(c: Collation): (Entry, Entry) -> bool {
    (a: Entry, b: Entry) => c(a.emoji) < c(b.emoji)
  }

  /** No two emoji shown at one order compare equal. */
  ghost predicate NoTies(c: Collation, b: Board) {
    forall order :: order in b ==>
      forall i, j :: 0 <= i < j < |b[order]| ==> c(b[order][i].emoji) != c(b[order][j].emoji)
  }

  /** The entry of one (order, emoji) is x. */
  ghost predicate Shows(b: Board, x: Entry) {
    x in ListAt(b, x.chainSeq)
  }

  /** The last event for a key. */
  ghost function LastEvent(events: seq<Event>, order: int, emoji: string): Option<Event> {
    if events == [] then None
    else
      var e := events[|events| - 1];
      if e.chainSeq == order && e.emoji == emoji then Some(e)
      else LastEvent(events[..|events| - 1], order, emoji)
  }

  lemma NewListMembers(c: Collation, s: seq<Entry>, e: Event)
    ensures forall x :: x in NewList(c, s, e) <==>
      (x in s && x.emoji != e.emoji) || (e.count > 0 && x == ToEntry(e))
  {
    var others := Others(s, e.emoji);
    OthersFacts(s, e.emoji);
    Sorting.SortContents(ByEmoji(c), if e.count > 0 then others + [ToEntry(e)] else others);
  }

  lemma NewListSorted(c: Collation, s: seq<Entry>, e: Event)
    requires DistinctEmoji(s)
    ensures var next := NewList(c, s, e);
      (forall i, j :: 0 <= i < j < |next| ==> c(next[i].emoji) <= c(next[j].emoji)) && DistinctEmoji(next)
  {
    var others := Others(s, e.emoji);
    var entries := if e.count > 0 then others + [ToEntry(e)] else others;
    OthersDistinct(s, e.emoji);
    OthersFacts(s, e.emoji);
    assert forall j :: 0 <= j < |others| ==> others[j] in others;
    Sorting.SortContents(ByEmoji(c), entries);
    ByEmojiPreorder(c);
    Sorting.SortSorted(ByEmoji(c), entries);
    JsMap.Rearranged(EmojiOf, entries, NewList(c, s, e));
    var next := NewList(c, s, e);
    forall i, j | 0 <= i < j < |next| ensures c(next[i].emoji) <= c(next[j].emoji) {
      assert ByEmoji(c)(next[i], next[j]);
    }
  }

  lemma {:induction false} OthersDistinct(s: seq<Entry>, emoji: string)
    requires DistinctEmoji(s)
    ensures DistinctEmoji(Others(s, emoji))
  {
    if s != [] {
      var k := |s| - 1;
      OthersDistinct(s[..k], emoji);
      OthersFacts(s[..k], emoji);
      var front := Others(s[..k], emoji);
      forall j | 0 <= j < |front| ensures EmojiOf(front[j]) != EmojiOf(s[k]) {
        assert front[j] in s[..k];
      }
    }
  }

  /** Every event keeps the board well formed, whatever the collation. */
  lemma ApplyKeepsWellFormed(c: Collation, b: Board, e: Event)
    requires WellFormed(c, b)
    ensures WellFormed(c, Apply(c, b, e))
  {
    var next := Apply(c, b, e);
    NewListOk(c, e.chainSeq, ListAt(b, e.chainSeq), e);
    forall order | order in next ensures ListOk(c, order, next[order]) {
      if order != e.chainSeq {
        assert order in b && next[order] == b[order];
      }
    }
  }

  lemma NewListOk(c: Collation, order: int, s: seq<Entry>, e: Event)
    requires e.chainSeq == order && (s != [] ==> ListOk(c, order, s))
    ensures NewList(c, s, e) != [] ==> ListOk(c, order, NewList(c, s, e))
  {
    NewListMembers(c, s, e);
    NewListSorted(c, s, e);
  }

  lemma {:induction false} RunKeepsWellFormed(c: Collation, b: Board, events: seq<Event>)
    requires WellFormed(c, b)
    ensures WellFormed(c, After(c, b, events))
  {
    if events != [] {
      RunKeepsWellFormed(c, b, events[..|events| - 1]);
      ApplyKeepsWellFormed(c, After(c, b, events[..|events| - 1]), events[|events| - 1]);
    }
  }

  /** After any events, an entry is shown for a key exactly when it is the key's last event with a
      positive count, or was there at the start and its key had no event. */
  lemma {:induction false} LastWriterWins(c: Collation, b: Board, events: seq<Event>, x: Entry)
    ensures var last := LastEvent(events, x.chainSeq, x.emoji);
      Shows(After(c, b, events), x) <==>
        if last.Some? then
          last.value.count > 0 && x.count == last.value.count && x.reactors == last.value.reactors
        else Shows(b, x)
  {
    if events != [] {
      var k := |events| - 1;
      var before, e := After(c, b, events[..k]), events[k];
      LastWriterWins(c, b, events[..k], x);
      NewListMembers(c, ListAt(before, e.chainSeq), e);
      assert ListAt(After(c, b, events), x.chainSeq) ==
        if x.chainSeq == e.chainSeq then NewList(c, ListAt(before, e.chainSeq), e) else ListAt(before, x.chainSeq);
    }
  }

  /** The two histories end with the same event for every key. */
  ghost predicate SameLast(a: seq<Event>, d: seq<Event>) {
    forall order, emoji :: LastEvent(a, order, emoji) == LastEvent(d, order, emoji)
  }

  /** Two histories with the same last events show the same entries, and the same board when no two
      emoji shown at one order compare equal. */
  lemma HistoriesConverge(c: Collation, b: Board, a: seq<Event>, d: seq<Event>)
    requires WellFormed(c, b) && SameLast(a, d)
    ensures forall x :: Shows(After(c, b, a), x) <==> Shows(After(c, b, d), x)
    ensures NoTies(c, After(c, b, a)) ==> After(c, b, a) == After(c, b, d)
  {
    var p, q := After(c, b, a), After(c, b, d);
    forall x ensures Shows(p, x) <==> Shows(q, x) {
      LastWriterWins(c, b, a, x);
      LastWriterWins(c, b, d, x);
    }
    RunKeepsWellFormed(c, b, a);
    RunKeepsWellFormed(c, b, d);
    if NoTies(c, p) {
      SameBoard(c, p, q);
    }
  }

  lemma SameBoard(c: Collation, p: Board, q: Board)
    requires WellFormed(c, p) && WellFormed(c, q) && NoTies(c, p)
    requires forall x :: Shows(p, x) <==> Shows(q, x)
    ensures p == q
  {
    forall order ensures ListAt(p, order) == ListAt(q, order) {
      SameList(c, p, q, order);
    }
    forall order ensures order in p <==> order in q {
      assert ListAt(p, order) == ListAt(q, order);
    }
    forall order | order in p ensures p[order] == q[order] {
      assert ListAt(p, order) == ListAt(q, order);
    }
  }

  /** Without ties, a list is determined by the entries it shows. */
  lemma SameList(c: Collation, p: Board, q: Board, order: int)
    requires WellFormed(c, p) && WellFormed(c, q) && NoTies(c, p)
    requires forall x :: Shows(p, x) <==> Shows(q, x)
    ensures ListAt(p, order) == ListAt(q, order)
  {
    var s, t := ListAt(p, order), ListAt(q, order);
    forall x ensures x in s <==> x in t {
      assert Shows(p, x) <==> Shows(q, x);
    }
    if s != [] {
      TiesNowhere(c, s);
      StrictList(c, order, s);
      HeadShown(s);
      StrictList(c, order, t);
      Sorting.SameElements(Ranked(c), s, t);
    } else {
      HeadShown(t);
    }
  }

  lemma HeadShown(s: seq<Entry>)
    ensures s != [] ==> s[0] in s
  {
  }

  ghost predicate Untied(c: Collation, s: seq<Entry>) {
    forall x, y :: x in s && y in s && x.emoji != y.emoji ==> c(x.emoji) != c(y.emoji)
  }

  lemma TiesNowhere(c: Collation, s: seq<Entry>)
    requires forall i, j :: 0 <= i < j < |s| ==> c(s[i].emoji) != c(s[j].emoji)
    ensures Untied(c, s)
  {
    forall x, y | x in s && y in s && x.emoji != y.emoji ensures c(x.emoji) != c(y.emoji) {
      var k :| 0 <= k < |s| && s[k] == x;
      var l :| 0 <= l < |s| && s[l] == y;
    }
  }

  lemma StrictList(c: Collation, order: int, s: seq<Entry>)
    requires ListOk(c, order, s) && Untied(c, s)
    ensures Sorting.StrictlySorted(Ranked(c), s)
  {
    forall i, j | 0 <= i < j < |s| ensures Ranked(c)(s[i], s[j]) {
      assert EmojiOf(s[i]) != EmojiOf(s[j]) && s[i] in s && s[j] in s;
    }
  }

  /** From an empty board, a history's board depends on nothing but the last events exactly when no two
      emoji that it shows at one order compare equal. */
  lemma ConvergeExactly(c: Collation, a: seq<Event>)
    ensures (forall d :: SameLast(a, d) ==> After(c, map[], d) == After(c, map[], a))
      <==> NoTies(c, After(c, map[], a))
  {
    var p := After(c, map[], a);
    if NoTies(c, p) {
      forall d | SameLast(a, d) ensures After(c, map[], d) == p {
        HistoriesConverge(c, map[], a, d);
      }
    } else {
      var order :| order in p && !(forall i, j :: 0 <= i < j < |p[order]| ==>
        c(p[order][i].emoji) != c(p[order][j].emoji));
      var i, j :| 0 <= i < j < |p[order]| && c(p[order][i].emoji) == c(p[order][j].emoji);
      var d := TieDiverges(c, a, order, i, j);
      assert SameLast(a, d) && After(c, map[], d) != p;
    }
  }

  /** Where two emoji tie, repeating the last event of the first one moves it behind the second. */
  lemma TieDiverges(c: Collation, a: seq<Event>, order: int, i: nat, j: nat) returns (d: seq<Event>)
    requires order in After(c, map[], a) && i < j < |After(c, map[], a)[order]|
    requires var s := After(c, map[], a)[order]; c(s[i].emoji) == c(s[j].emoji)
    ensures SameLast(a, d) && After(c, map[], d) != After(c, map[], a)
  {
    var p := After(c, map[], a);
    var s := p[order];
    var x := s[i];
    RunKeepsWellFormed(c, map[], a);
    assert x in s && Shows(p, x);
    LastWriterWins(c, map[], a, x);
    var e := LastEvent(a, order, x.emoji).value;
    LastEventKey(a, order, x.emoji);
    d := a + [e];
    assert d[..|d| - 1] == a;
    MovesBehind(c, s, e, i, j);
    assert ListAt(Apply(c, p, e), order) == NewList(c, s, e);
  }

  lemma {:induction false} LastEventKey(events: seq<Event>, order: int, emoji: string)
    ensures var last := LastEvent(events, order, emoji);
      last.Some? ==> last.value.chainSeq == order && last.value.emoji == emoji
  {
    if events != [] {
      LastEventKey(events[..|events| - 1], order, emoji);
    }
  }

  lemma MovesBehind(c: Collation, s: seq<Entry>, e: Event, i: nat, j: nat)
    requires DistinctEmoji(s) && i < j < |s| && c(s[i].emoji) == c(s[j].emoji)
    requires e.count > 0 && s[i] == ToEntry(e)
    ensures NewList(c, s, e) != s
  {
    var t := Sorting.Sort(ByEmoji(c), Others(s, e.emoji));
    NewListForm(c, s, e);
    ByEmojiPreorder(c);
    Sorting.SortSorted(ByEmoji(c), Others(s, e.emoji));
    var q := InsertPlace(c, t, s[i]);
    var next := t[..q] + [s[i]] + t[q..];
    if |next| == |s| {
      if q == i {
        assert next[j] == t[j - 1] && ByEmoji(c)(s[j], s[i]);
        assert next[j] != s[j];
      } else {
        assert EmojiOf(s[q]) != EmojiOf(s[i]) && next[q] == s[i];
        assert next[q] != s[q];
      }
    }
  }

  /** An insertion leaves only greater entries behind the new one. */
  lemma {:induction false} InsertPlace(c: Collation, t: seq<Entry>, x: Entry) returns (q: nat)
    requires Sorting.Sorted(ByEmoji(c), t)
    ensures q <= |t| && Sorting.Insert(ByEmoji(c), t, x) == t[..q] + [x] + t[q..]
    ensures forall k :: q <= k < |t| ==> !ByEmoji(c)(t[k], x)
  {
    q := 0;
    if t != [] && ByEmoji(c)(t[0], x) {
      var rest := InsertPlace(c, t[1..], x);
      q := rest + 1;
      assert [t[0]] + t[1..][..rest] == t[..q] && t[1..][rest..] == t[q..];
      forall k | q <= k < |t| ensures !ByEmoji(c)(t[k], x) {
        assert t[k] == t[1..][k - 1];
      }
    } else if t != [] {
      forall k | 0 <= k < |t| ensures !ByEmoji(c)(t[k], x) {
        assert k > 0 ==> ByEmoji(c)(t[0], t[k]);
      }
    }
  }
}
