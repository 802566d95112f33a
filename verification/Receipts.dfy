/** Receipt acknowledgements of one open thread: delivered and read watermarks, debounce, retries. */
module Receipts {
  import opened Base

  datatype Mode = NoReceipts | DeliveredOnly | Full

  /** Three backoff delays, hence three retries. */
  const MAX_RETRIES := 3

  /** An outstanding promise. */
  datatype Flight =
    | DeliveredPost(upto: int)                // posted by the delivered flush
    | DeliveredFirst(upto: int, read: int)    // posted by the read flush, before its read POST
    | ReadReady(read: int)                    // nothing left to post before the read POST
    | ReadPost(read: int)

  datatype Retry = NoRetry | RetryDelivered | RetryRead

  /** What can be observed: POSTs as they are issued and answered, and scheduled retries. */
  datatype Entry =
    | IssuedDelivered(id: nat, upto: int)
    | IssuedRead(id: nat, upto: int)
    | DeliveredFailed(id: nat)
    | ReadFailed(id: nat)
    | Succeeded(id: nat)
    | RetryScheduled

  datatype State = State(
    mode: Mode,
    pendingDelivered: int,
    lastSentDelivered: int,
    pendingRead: int,
    lastSentRead: int,
    deliveredTimer: bool,
    retryTimer: Retry,
    retryAttempt: nat,
    flights: map<nat, Flight>,
    nextId: nat,
    log: seq<Entry>)

  datatype Event =
    | ScheduleDelivered(order: int)  // a live message, or a caught-up page
    | InitialTip(order: int)         // the thread has loaded
    | DeliveredTimerFires
    | ScheduleRead(order: int)       // the thread is looked at
    | Continue(id: nat)              // the read flow goes on to its read POST
    | Succeed(id: nat)               // a POST succeeded
    | FailPost(id: nat)              // a POST failed
    | RetryTimerFires
    | SetMode(mode: Mode)

  function Max(a: int, b: int): int {
    if a > b then a else b
  }

  function Opened(mode: Mode): State {
    State(mode, 0, 0, 0, 0, false, NoRetry, 0, map[], 0, [])
  }

  // ------------------------------------------------------------- the steps, on values

  function Launch(s: State, f: Flight): State {
    s.(flights := s.flights[s.nextId := f], nextId := s.nextId + 1)
  }

  /** A delivered POST of the pending watermark. */
  function Issue(s: State, f: Flight): State {
    Launch(s.(lastSentDelivered := s.pendingDelivered,
              log := s.log + [IssuedDelivered(s.nextId, s.pendingDelivered)]), f)
  }

  function FlushDelivered(s: State): State {
    if s.mode == NoReceipts || s.pendingDelivered <= s.lastSentDelivered then s
    else Issue(s, DeliveredPost(s.pendingDelivered))
  }

  function Scheduled(s: State, order: int): State {
    if order <= 0 then s
    else s.(pendingDelivered := Max(s.pendingDelivered, order), deliveredTimer := true)
  }

  function FlushRead(s: State): State {
    if s.mode == NoReceipts || s.pendingRead <= 0 then s
    else if s.mode == DeliveredOnly then Scheduled(s, s.pendingRead)
    else if s.pendingRead <= s.lastSentRead then s
    else
      var t := s.(lastSentRead := s.pendingRead);
      if s.pendingRead <= s.lastSentDelivered then Launch(t, ReadReady(s.pendingRead))
      else
        var u := t.(deliveredTimer := false, pendingDelivered := Max(s.pendingDelivered, s.pendingRead));
        Issue(u, DeliveredFirst(u.pendingDelivered, s.pendingRead))
  }

  function RetryWith(s: State, timer: Retry): State {
    if s.retryAttempt < MAX_RETRIES
    then s.(retryAttempt := s.retryAttempt + 1, retryTimer := timer, log := s.log + [RetryScheduled])
    else s
  }

  function Land(s: State, id: nat): State {
    s.(flights := s.flights - {id})
  }

  function DeliveredFails(s: State, id: nat, upto: int): State {
    s.(lastSentDelivered := if s.lastSentDelivered == upto then 0 else s.lastSentDelivered,
       log := s.log + [DeliveredFailed(id)])
  }

  function ReadFlowFails(s: State, read: int): State {
    RetryWith(s.(lastSentRead := if s.lastSentRead == read then 0 else s.lastSentRead), RetryRead)
  }

  function Answered(s: State, id: nat): State {
    Land(s, id).(retryAttempt := 0, log := s.log + [Succeeded(id)])
  }

  function Step(s: State, e: Event): State {
    match e
    case ScheduleDelivered(order) => Scheduled(s, order)
    case InitialTip(order) => FlushDelivered(s.(pendingDelivered := Max(s.pendingDelivered, order)))
    case DeliveredTimerFires => if s.deliveredTimer then FlushDelivered(s.(deliveredTimer := false)) else s
    case ScheduleRead(order) =>
      if order <= 0 then s else FlushRead(s.(pendingRead := Max(s.pendingRead, order)))
    case Continue(id) =>
      if id in s.flights && s.flights[id].ReadReady? then
        var read := s.flights[id].read;
        s.(flights := s.flights[id := ReadPost(read)], log := s.log + [IssuedRead(id, read)])
      else s
    case Succeed(id) =>
      if id !in s.flights then s
      else (match s.flights[id]
            case DeliveredPost(_) => Answered(s, id)
            case DeliveredFirst(_, read) => s.(flights := s.flights[id := ReadReady(read)])
            case ReadReady(_) => s
            case ReadPost(_) => Answered(s, id))
    case FailPost(id) =>
      if id !in s.flights then s
      else (match s.flights[id]
            case DeliveredPost(upto) => RetryWith(DeliveredFails(Land(s, id), id, upto), RetryDelivered)
            case DeliveredFirst(upto, read) => ReadFlowFails(DeliveredFails(Land(s, id), id, upto), read)
            case ReadReady(_) => s
            case ReadPost(read) =>
              ReadFlowFails(Land(s, id).(log := s.log + [ReadFailed(id)]), read))
    case RetryTimerFires =>
      var t := s.(retryTimer := NoRetry);
      (match s.retryTimer
       case NoRetry => s
       case RetryDelivered => FlushDelivered(t)
       case RetryRead => FlushRead(t))
    case SetMode(mode) => s.(mode := mode)
  }

  function Run(s: State, events: seq<Event>): State {
    if events == [] then s else Step(Run(s, events[..|events| - 1]), events[|events| - 1])
  }

  // ----------------------------------------------------------- the refs of the hook

  class ReceiptAcks {
    var mode: Mode
    var pendingDelivered: int
    var lastSentDelivered: int
    var pendingRead: int
    var lastSentRead: int
    var deliveredTimer: bool
    var retryTimer: Retry
    var retryAttempt: nat
    var flights: map<nat, Flight>
    var nextId: nat
    var log: seq<Entry>

    function Now(): State
      reads this
    {
      State(mode, pendingDelivered, lastSentDelivered, pendingRead, lastSentRead,
            deliveredTimer, retryTimer, retryAttempt, flights, nextId, log)
    }

    constructor (mode: Mode)
      ensures Now() == Opened(mode)
    {
      this.mode := mode;
      pendingDelivered, lastSentDelivered, pendingRead, lastSentRead := 0, 0, 0, 0;
      deliveredTimer, retryTimer, retryAttempt := false, NoRetry, 0;
      flights, nextId, log := map[], 0, [];
    }

    method Post(f: Flight)
      modifies this`flights, this`nextId
      ensures Now() == Launch(old(Now()), f)
    {
      flights := flights[nextId := f];
      nextId := nextId + 1;
    }

    method FlushDeliveredAck()
      modifies this
      ensures Now() == FlushDelivered(old(Now()))
    {
      if mode == NoReceipts { return; }
      var deliveredUpto := pendingDelivered;
      if deliveredUpto <= lastSentDelivered { return; }
      lastSentDelivered := deliveredUpto;
      log := log + [IssuedDelivered(nextId, deliveredUpto)];
      Post(DeliveredPost(deliveredUpto));
    }

    method ScheduleDeliveredAck(order: int)
      modifies this
      ensures Now() == Scheduled(old(Now()), order)
    {
      if order <= 0 { return; }
      pendingDelivered := Max(pendingDelivered, order);
      deliveredTimer := true;
    }

    method FlushPeerReadAck()
      modifies this
      ensures Now() == FlushRead(old(Now()))
    {
      if mode == NoReceipts { return; }
      var readUpto := pendingRead;
      if readUpto <= 0 { return; }
      if mode == DeliveredOnly {
        ScheduleDeliveredAck(readUpto);
        return;
      }
      if readUpto <= lastSentRead { return; }
      lastSentRead := readUpto;
      if readUpto <= lastSentDelivered {
        Post(ReadReady(readUpto));
        return;
      }
      deliveredTimer := false;
      pendingDelivered := Max(pendingDelivered, readUpto);
      var deliveredUpto := pendingDelivered;
      lastSentDelivered := deliveredUpto;
      log := log + [IssuedDelivered(nextId, deliveredUpto)];
      Post(DeliveredFirst(deliveredUpto, readUpto));
    }

    method ScheduleRetry(timer: Retry)
      modifies this
      ensures Now() == RetryWith(old(Now()), timer)
    {
      if retryAttempt < MAX_RETRIES {
        retryAttempt := retryAttempt + 1;
        retryTimer := timer;
        log := log + [RetryScheduled];
      }
    }

    method FailDelivered(id: nat, upto: int)
      modifies this
      ensures Now() == DeliveredFails(Land(old(Now()), id), id, upto)
    {
      flights := flights - {id};
      if lastSentDelivered == upto {
        lastSentDelivered := 0;
      }
      log := log + [DeliveredFailed(id)];
    }

    method FailReadFlow(read: int)
      modifies this
      ensures Now() == ReadFlowFails(old(Now()), read)
    {
      if lastSentRead == read {
        lastSentRead := 0;
      }
      ScheduleRetry(RetryRead);
    }

    method HandleSuccess(id: nat)
      modifies this
      ensures Now() == Step(old(Now()), Succeed(id))
    {
      if id in flights {
        match flights[id]
        case DeliveredFirst(_, read) => flights := flights[id := ReadReady(read)];
        case ReadReady(_) =>
        case _ =>
          flights := flights - {id};
          retryAttempt := 0;
          log := log + [Succeeded(id)];
      }
    }

    method HandleFailure(id: nat)
      modifies this
      ensures Now() == Step(old(Now()), FailPost(id))
    {
      if id in flights {
        match flights[id]
        case DeliveredPost(upto) =>
          FailDelivered(id, upto);
          ScheduleRetry(RetryDelivered);
        case DeliveredFirst(upto, read) =>
          FailDelivered(id, upto);
          FailReadFlow(read);
        case ReadReady(_) =>
        case ReadPost(read) =>
          flights := flights - {id};
          log := log + [ReadFailed(id)];
          FailReadFlow(read);
      }
    }

    method Handle(e: Event)
      modifies this
      ensures Now() == Step(old(Now()), e)
    {
      match e
      case ScheduleDelivered(order) => ScheduleDeliveredAck(order);
      case InitialTip(order) =>
        pendingDelivered := Max(pendingDelivered, order);
        FlushDeliveredAck();
      case DeliveredTimerFires =>
        if deliveredTimer {
          deliveredTimer := false;
          FlushDeliveredAck();
        }
      case ScheduleRead(order) =>
        if order > 0 {
          pendingRead := Max(pendingRead, order);
          FlushPeerReadAck();
        }
      case Continue(id) =>
        if id in flights && flights[id].ReadReady? {
          var read := flights[id].read;
          flights := flights[id := ReadPost(read)];
          log := log + [IssuedRead(id, read)];
        }
      case Succeed(id) => HandleSuccess(id);
      case FailPost(id) => HandleFailure(id);
      case RetryTimerFires =>
        var due := retryTimer;
        if due != NoRetry {
          retryTimer := NoRetry;
          if due == RetryDelivered { FlushDeliveredAck(); } else { FlushPeerReadAck(); }
        }
      case SetMode(m) => mode := m;
    }
  }

  // --------------------------------------------------------- what the log must satisfy

  /** Issued delivered values never decrease. */
  ghost predicate Ascending(log: seq<Entry>) {
    forall i, j :: 0 <= i < j < |log| && log[i].IssuedDelivered? && log[j].IssuedDelivered? ==>
      log[i].upto <= log[j].upto
  }

  /** A value is issued again only after its own earlier POST failed. */
  ghost predicate ReissuedOnlyAfterFailure(log: seq<Entry>) {
    forall i, j | 0 <= i < j < |log| && log[i].IssuedDelivered? && log[j].IssuedDelivered? ::
      log[i].upto == log[j].upto ==> DeliveredFailed(log[i].id) in log[..j]
  }

  /** Every read POST is preceded by an issued delivered POST of at least its value. */
  ghost predicate DeliveredBeforeRead(log: seq<Entry>) {
    forall j :: 0 <= j < |log| && log[j].IssuedRead? ==> Covered(log[..j], log[j].upto)
  }

  ghost predicate Covered(log: seq<Entry>, upto: int) {
    exists i :: 0 <= i < |log| && log[i].IssuedDelivered? && log[i].upto >= upto
  }

  /** Retries scheduled since the last success. */
  ghost function RetriesSince(log: seq<Entry>): nat {
    if log == [] then 0
    else
      var front, last := log[..|log| - 1], log[|log| - 1];
      if last.Succeeded? then 0 else if last.RetryScheduled? then RetriesSince(front) + 1 else RetriesSince(front)
  }

  /** At every moment, at most three retries have been scheduled since the last success. */
  ghost predicate FewRetries(log: seq<Entry>) {
    forall k :: 0 <= k <= |log| ==> RetriesSince(log[..k]) <= MAX_RETRIES
  }

  ghost predicate LogOk(log: seq<Entry>) {
    Ascending(log) && ReissuedOnlyAfterFailure(log) && DeliveredBeforeRead(log) && FewRetries(log)
  }

  // ---------------------------------------------------------------- the invariant

  /** Where the last delivered POST was issued; -1 before the first. */
  ghost function LastIssue(log: seq<Entry>): (r: int)
    ensures -1 <= r < |log|
    ensures r >= 0 ==> log[r].IssuedDelivered?
    ensures forall i :: r < i < |log| ==> !log[i].IssuedDelivered?
  {
    if log == [] then -1
    else if log[|log| - 1].IssuedDelivered? then |log| - 1
    else LastIssue(log[..|log| - 1])
  }

  /** The sent watermark is the last issued value, or 0 once that very POST has failed. */
  ghost predicate WatermarkOk(s: State) {
    var last := LastIssue(s.log);
    if last < 0 then s.lastSentDelivered == 0 && s.pendingDelivered >= 0
    else
      && 0 < s.log[last].upto <= s.pendingDelivered
      && (s.lastSentDelivered == s.log[last].upto
          || (s.lastSentDelivered == 0 && DeliveredFailed(s.log[last].id) in s.log))
  }

  /** A delivered POST under way was issued with its value and has not failed;
      a read flow under way is covered by an issued delivered POST. */
  ghost predicate FlightsOk(s: State) {
    forall id :: id in s.flights ==> id < s.nextId && FlightOk(s.log, id, s.flights[id])
  }

  ghost predicate FlightOk(log: seq<Entry>, id: nat, f: Flight) {
    match f
    case DeliveredPost(upto) => IssuedDelivered(id, upto) in log && DeliveredFailed(id) !in log
    case DeliveredFirst(upto, read) =>
      IssuedDelivered(id, upto) in log && DeliveredFailed(id) !in log && read <= upto
    case ReadReady(read) => Covered(log, read)
    case ReadPost(read) => Covered(log, read)
  }

  /** Every POST has its own id. */
  ghost predicate IdsOk(s: State) {
    && (forall i :: 0 <= i < |s.log| && s.log[i].IssuedDelivered? ==>
          s.log[i].id < s.nextId && s.log[i].upto > 0)
    && (forall i :: 0 <= i < |s.log| && s.log[i].DeliveredFailed? ==> s.log[i].id < s.nextId)
    && (forall i, j :: 0 <= i < j < |s.log| && s.log[i].IssuedDelivered? && s.log[j].IssuedDelivered? ==>
          s.log[i].id != s.log[j].id)
  }

  ghost predicate Inv(s: State) {
    && LogOk(s.log) && WatermarkOk(s) && FlightsOk(s) && IdsOk(s)
    && RetriesSince(s.log) == s.retryAttempt <= MAX_RETRIES
  }

  lemma CoveredGrows(log: seq<Entry>, e: Entry, upto: int)
    requires Covered(log, upto)
    ensures Covered(log + [e], upto)
  {
    var i :| 0 <= i < |log| && log[i].IssuedDelivered? && log[i].upto >= upto;
    assert (log + [e])[i] == log[i];
  }

  /** Appending an entry that is no delivered POST keeps the log in order. */
  lemma AppendOther(log: seq<Entry>, e: Entry)
    requires LogOk(log) && !e.IssuedDelivered?
    requires e.IssuedRead? ==> Covered(log, e.upto)
    requires e.RetryScheduled? ==> RetriesSince(log) < MAX_RETRIES
    ensures LogOk(log + [e]) && LastIssue(log + [e]) == LastIssue(log)
    ensures RetriesSince(log + [e]) ==
      if e.Succeeded? then 0 else if e.RetryScheduled? then RetriesSince(log) + 1 else RetriesSince(log)
  {
    var all, n := log + [e], |log|;
    assert all[..n] == log;
    forall j | 0 <= j <= n ensures all[..j] == log[..j] {
    }
    AppendRetries(log, e);
    forall i, j | 0 <= i < j < |all| && all[i].IssuedDelivered? && all[j].IssuedDelivered? && all[i].upto == all[j].upto
      ensures DeliveredFailed(all[i].id) in all[..j]
    {
      assert log[i] == all[i] && log[j] == all[j];
    }
    forall j | 0 <= j < |all| && all[j].IssuedRead? ensures Covered(all[..j], all[j].upto) {
      if j < n {
        assert log[j] == all[j];
      }
    }
  }

  lemma AppendRetries(log: seq<Entry>, e: Entry)
    requires FewRetries(log)
    requires e.RetryScheduled? ==> RetriesSince(log) < MAX_RETRIES
    ensures FewRetries(log + [e])
  {
    var all := log + [e];
    assert all[..|log|] == log && log[..|log|] == log && all[..|all|] == all;
    forall k | 0 <= k <= |all| ensures RetriesSince(all[..k]) <= MAX_RETRIES {
      if k <= |log| {
        assert all[..k] == log[..k];
      }
    }
  }

  /** Issuing the pending watermark above the sent one keeps the log in order. */
  lemma AppendIssue(s: State)
    requires Inv(s) && s.pendingDelivered > s.lastSentDelivered
    ensures var log := s.log + [IssuedDelivered(s.nextId, s.pendingDelivered)];
      LogOk(log) && LastIssue(log) == |s.log|
      && RetriesSince(log) == RetriesSince(s.log)
  {
    var e := IssuedDelivered(s.nextId, s.pendingDelivered);
    var log, all, n := s.log, s.log + [e], |s.log|;
    assert all[..n] == log;
    AppendRetries(log, e);
    forall j | 0 <= j <= n ensures all[..j] == log[..j] {
    }
    forall i | 0 <= i < n && log[i].IssuedDelivered?
      ensures log[i].upto <= e.upto && (log[i].upto == e.upto ==> DeliveredFailed(log[i].id) in log)
    {
      IssuedBefore(s, i);
    }
    forall i, j | 0 <= i < j < |all| && all[i].IssuedDelivered? && all[j].IssuedDelivered? && all[i].upto == all[j].upto
      ensures DeliveredFailed(all[i].id) in all[..j]
    {
      assert log[i] == all[i];
      if j < n {
        assert log[j] == all[j];
      }
    }
    forall j | 0 <= j < |all| && all[j].IssuedRead? ensures Covered(all[..j], all[j].upto) {
      assert log[j] == all[j];
    }
  }

  /** What the invariant says of an earlier POST when the pending watermark is about to be issued. */
  lemma IssuedBefore(s: State, i: nat)
    requires Inv(s) && s.pendingDelivered > s.lastSentDelivered
    requires i < |s.log| && s.log[i].IssuedDelivered?
    ensures s.log[i].upto <= s.pendingDelivered
    ensures s.log[i].upto == s.pendingDelivered ==> DeliveredFailed(s.log[i].id) in s.log
  {
    var log, t := s.log, LastIssue(s.log);
    if i < t && log[i].upto == s.pendingDelivered {
      assert log[i].upto <= log[t].upto;
      assert DeliveredFailed(log[i].id) in log[..t];
    }
  }

  // ------------------------------------------------- each step keeps the invariant

  lemma IssueFlights(s: State, f: Flight)
    requires FlightsOk(s) && IdsOk(s)
    requires f == DeliveredPost(s.pendingDelivered)
      || (f.DeliveredFirst? && f.upto == s.pendingDelivered && f.read <= f.upto)
    ensures FlightsOk(Issue(s, f))
  {
    var t := Issue(s, f);
    var e := IssuedDelivered(s.nextId, s.pendingDelivered);
    assert t.log == s.log + [e] && e == t.log[|s.log|];
    FlightsSurvive(s, e);
    forall id | id in t.flights ensures id < t.nextId && FlightOk(t.log, id, t.flights[id]) {
      if id != s.nextId {
        assert FlightOk(s.(log := s.log + [e]).log, id, s.flights[id]);
      }
    }
  }

  lemma IssueKeeps(s: State, f: Flight)
    requires Inv(s) && s.pendingDelivered > s.lastSentDelivered
    requires f == DeliveredPost(s.pendingDelivered)
      || (f.DeliveredFirst? && f.upto == s.pendingDelivered && f.read <= f.upto)
    ensures Inv(Issue(s, f))
  {
    AppendIssue(s);
    IssueFlights(s, f);
    assert Issue(s, f).log[|s.log|] == IssuedDelivered(s.nextId, s.pendingDelivered);
  }

  /** Flights stay as they were when an entry is logged that is not their own failure. */
  lemma FlightsSurvive(s: State, e: Entry)
    requires FlightsOk(s) && (e.DeliveredFailed? ==> e.id !in s.flights)
    ensures FlightsOk(s.(log := s.log + [e]))
  {
    forall id | id in s.flights && (s.flights[id].ReadReady? || s.flights[id].ReadPost?)
      ensures Covered(s.log + [e], s.flights[id].read)
    {
      CoveredGrows(s.log, e, s.flights[id].read);
    }
  }

  lemma FlushDeliveredKeeps(s: State)
    requires Inv(s)
    ensures Inv(FlushDelivered(s))
  {
    if s.mode != NoReceipts && s.pendingDelivered > s.lastSentDelivered {
      IssueKeeps(s, DeliveredPost(s.pendingDelivered));
    }
  }

  lemma DeliverFirstKeeps(s: State)
    requires Inv(s) && s.pendingRead > s.lastSentDelivered
    ensures var u := s.(lastSentRead := s.pendingRead, deliveredTimer := false,
                        pendingDelivered := Max(s.pendingDelivered, s.pendingRead));
      Inv(Issue(u, DeliveredFirst(u.pendingDelivered, s.pendingRead)))
  {
    var u := s.(lastSentRead := s.pendingRead, deliveredTimer := false,
                pendingDelivered := Max(s.pendingDelivered, s.pendingRead));
    assert Inv(u);
    IssueKeeps(u, DeliveredFirst(u.pendingDelivered, s.pendingRead));
  }

  lemma FlushReadKeeps(s: State)
    requires Inv(s)
    ensures Inv(FlushRead(s))
  {
    if s.mode == Full && s.pendingRead > 0 && s.pendingRead > s.lastSentRead {
      if s.pendingRead > s.lastSentDelivered {
        DeliverFirstKeeps(s);
      }
    }
  }

  /** An entry that is neither an issued nor a failed delivered POST leaves watermark and ids in order. */
  lemma OtherWatermark(s: State, e: Entry, t: State)
    requires WatermarkOk(s) && IdsOk(s) && !e.IssuedDelivered? && !e.DeliveredFailed?
    requires LastIssue(s.log + [e]) == LastIssue(s.log)
    requires t.log == s.log + [e] && t.nextId == s.nextId
    requires t.lastSentDelivered == s.lastSentDelivered && t.pendingDelivered == s.pendingDelivered
    ensures WatermarkOk(t) && IdsOk(t)
  {
    assert forall i :: 0 <= i < |s.log| ==> t.log[i] == s.log[i];
  }

  /** Flights that are taken off, or moved on to a covered read POST, stay in order. */
  lemma OtherFlights(s: State, e: Entry, t: State)
    requires FlightsOk(s) && !e.DeliveredFailed?
    requires t.log == s.log + [e] && t.nextId == s.nextId
    requires forall id :: id in t.flights ==> id in s.flights
    requires forall id :: id in t.flights ==>
      t.flights[id] == s.flights[id] || (t.flights[id].ReadPost? && Covered(s.log, t.flights[id].read))
    ensures FlightsOk(t)
  {
    forall id | id in t.flights ensures id < t.nextId && FlightOk(t.log, id, t.flights[id]) {
      assert FlightOk(s.log, id, s.flights[id]);
      if t.flights[id].ReadReady? || t.flights[id].ReadPost? {
        CoveredGrows(s.log, e, t.flights[id].read);
      }
    }
  }

  /** Logging an answer, a read POST or a retry, with the flight taken off or moved on. */
  lemma OtherEntryKeeps(s: State, e: Entry, flights: map<nat, Flight>)
    requires Inv(s) && !e.IssuedDelivered? && !e.DeliveredFailed?
    requires e.IssuedRead? ==> Covered(s.log, e.upto)
    requires e.RetryScheduled? ==> s.retryAttempt < MAX_RETRIES
    requires forall id :: id in flights ==> id in s.flights
    requires forall id :: id in flights ==>
      flights[id] == s.flights[id] || (flights[id].ReadPost? && Covered(s.log, flights[id].read))
    ensures Inv(s.(log := s.log + [e], flights := flights,
      retryAttempt := if e.Succeeded? then 0 else if e.RetryScheduled? then s.retryAttempt + 1 else s.retryAttempt))
  {
    var t := s.(log := s.log + [e], flights := flights,
      retryAttempt := if e.Succeeded? then 0 else if e.RetryScheduled? then s.retryAttempt + 1 else s.retryAttempt);
    AppendOther(s.log, e);
    OtherWatermark(s, e, t);
    OtherFlights(s, e, t);
  }

  lemma FailedWatermark(s: State, id: nat, upto: int)
    requires Inv(s) && IssuedDelivered(id, upto) in s.log && DeliveredFailed(id) !in s.log
    ensures WatermarkOk(DeliveredFails(Land(s, id), id, upto))
  {
    var e := DeliveredFailed(id);
    AppendOther(s.log, e);
    var log := s.log + [e];
    assert e == log[|s.log|];
  }

  lemma FailedIds(s: State, id: nat, upto: int)
    requires IdsOk(s) && id < s.nextId
    ensures IdsOk(DeliveredFails(Land(s, id), id, upto))
  {
    var t := DeliveredFails(Land(s, id), id, upto);
    assert forall i :: 0 <= i < |s.log| ==> t.log[i] == s.log[i];
  }

  lemma DeliveredFailsKeeps(s: State, id: nat, upto: int)
    requires Inv(s) && id in s.flights
    requires s.flights[id] == DeliveredPost(upto) || (s.flights[id].DeliveredFirst? && s.flights[id].upto == upto)
    ensures Inv(DeliveredFails(Land(s, id), id, upto))
  {
    assert FlightOk(s.log, id, s.flights[id]);
    AppendOther(s.log, DeliveredFailed(id));
    FlightsSurvive(Land(s, id), DeliveredFailed(id));
    FailedWatermark(s, id, upto);
    FailedIds(s, id, upto);
  }

  lemma ReadFlowFailsKeeps(s: State, read: int)
    requires Inv(s)
    ensures Inv(ReadFlowFails(s, read))
  {
    RetryKeeps(s.(lastSentRead := if s.lastSentRead == read then 0 else s.lastSentRead), RetryRead);
  }

  lemma RetryKeeps(s: State, timer: Retry)
    requires Inv(s)
    ensures Inv(RetryWith(s, timer))
  {
    if s.retryAttempt < MAX_RETRIES {
      OtherEntryKeeps(s, RetryScheduled, s.flights);
    }
  }

  lemma AnsweredKeeps(s: State, id: nat)
    requires Inv(s)
    ensures Inv(Answered(s, id))
  {
    OtherEntryKeeps(s, Succeeded(id), s.flights - {id});
  }

  lemma SucceedKeeps(s: State, id: nat)
    requires Inv(s)
    ensures Inv(Step(s, Succeed(id)))
  {
    if id in s.flights {
      assert FlightOk(s.log, id, s.flights[id]);
      if s.flights[id].DeliveredFirst? {
        assert Covered(s.log, s.flights[id].read);
      } else if !s.flights[id].ReadReady? {
        AnsweredKeeps(s, id);
      }
    }
  }

  lemma ReadPostFails(s: State, id: nat, read: int)
    requires Inv(s)
    ensures Inv(ReadFlowFails(Land(s, id).(log := s.log + [ReadFailed(id)]), read))
  {
    OtherEntryKeeps(s, ReadFailed(id), s.flights - {id});
    ReadFlowFailsKeeps(Land(s, id).(log := s.log + [ReadFailed(id)]), read);
  }

  lemma FailKeeps(s: State, id: nat)
    requires Inv(s)
    ensures Inv(Step(s, FailPost(id)))
  {
    if id in s.flights {
      match s.flights[id]
      case DeliveredPost(upto) =>
        DeliveredFailsKeeps(s, id, upto);
        RetryKeeps(DeliveredFails(Land(s, id), id, upto), RetryDelivered);
      case DeliveredFirst(upto, read) =>
        DeliveredFailsKeeps(s, id, upto);
        ReadFlowFailsKeeps(DeliveredFails(Land(s, id), id, upto), read);
      case ReadReady(_) =>
      case ReadPost(read) => ReadPostFails(s, id, read);
    }
  }

  lemma ContinueKeeps(s: State, id: nat)
    requires Inv(s)
    ensures Inv(Step(s, Continue(id)))
  {
    if id in s.flights && s.flights[id].ReadReady? {
      var read := s.flights[id].read;
      assert FlightOk(s.log, id, s.flights[id]);
      OtherEntryKeeps(s, IssuedRead(id, read), s.flights[id := ReadPost(read)]);
    }
  }

  lemma QuietKeeps(s: State, t: State)
    requires Inv(s)
    requires t.log == s.log && t.flights == s.flights && t.nextId == s.nextId && t.retryAttempt == s.retryAttempt
    requires t.lastSentDelivered == s.lastSentDelivered && t.pendingDelivered >= s.pendingDelivered
    ensures Inv(t)
  {
  }

  lemma RetryTimerKeeps(s: State)
    requires Inv(s)
    ensures Inv(Step(s, RetryTimerFires))
  {
    var t := s.(retryTimer := NoRetry);
    QuietKeeps(s, t);
    match s.retryTimer
    case NoRetry =>
    case RetryDelivered => FlushDeliveredKeeps(t);
    case RetryRead => FlushReadKeeps(t);
  }

  lemma ScheduleKeeps(s: State, e: Event)
    requires Inv(s) && (e.InitialTip? || e.DeliveredTimerFires? || e.ScheduleRead?)
    ensures Inv(Step(s, e))
  {
    match e
    case InitialTip(order) =>
      var t := s.(pendingDelivered := Max(s.pendingDelivered, order));
      QuietKeeps(s, t);
      FlushDeliveredKeeps(t);
    case DeliveredTimerFires =>
      QuietKeeps(s, s.(deliveredTimer := false));
      FlushDeliveredKeeps(s.(deliveredTimer := false));
    case ScheduleRead(order) =>
      var t := s.(pendingRead := Max(s.pendingRead, order));
      QuietKeeps(s, t);
      FlushReadKeeps(t);
  }

  /** Every step of every run keeps the invariant. */
  lemma StepKeepsInv(s: State, e: Event)
    requires Inv(s)
    ensures Inv(Step(s, e))
  {
    match e
    case ScheduleDelivered(order) => QuietKeeps(s, Step(s, e));
    case InitialTip(_) => ScheduleKeeps(s, e);
    case DeliveredTimerFires => ScheduleKeeps(s, e);
    case ScheduleRead(_) => ScheduleKeeps(s, e);
    case Continue(id) => ContinueKeeps(s, id);
    case Succeed(id) => SucceedKeeps(s, id);
    case FailPost(id) => FailKeeps(s, id);
    case RetryTimerFires => RetryTimerKeeps(s);
    case SetMode(_) => QuietKeeps(s, Step(s, e));
  }

  lemma {:induction false} RunKeepsInv(mode: Mode, events: seq<Event>)
    ensures Inv(Run(Opened(mode), events))
  {
    if events != [] {
      RunKeepsInv(mode, events[..|events| - 1]);
      StepKeepsInv(Run(Opened(mode), events[..|events| - 1]), events[|events| - 1]);
    }
  }

  /** Over every run of one open thread: issued delivered values never decrease, a value is reissued only
      after its own POST failed, every read POST follows an issued delivered POST of at least its value,
      and at most three retries are scheduled between successes. */
  lemma WatermarksOverRuns(mode: Mode, events: seq<Event>)
    ensures var log := Run(Opened(mode), events).log;
      Ascending(log) && ReissuedOnlyAfterFailure(log) && DeliveredBeforeRead(log) && FewRetries(log)
  {
    RunKeepsInv(mode, events);
  }

  // ------------------------------------------------------------------------ progress

  /** The debounced flush posts the highest order scheduled so far, unless it has been posted already. */
  lemma ScheduledIsPosted(s: State, order: int)
    requires Inv(s) && order > 0 && s.mode != NoReceipts
    ensures var t := Step(Step(s, ScheduleDelivered(order)), DeliveredTimerFires);
      && t.lastSentDelivered == t.pendingDelivered >= order
      && (Max(s.pendingDelivered, order) > s.lastSentDelivered ==>
            t.log == s.log + [IssuedDelivered(s.nextId, Max(s.pendingDelivered, order))])
  {
  }

  /** Once the thread has loaded, its tip is posted at once, unless it has been. */
  lemma TipIsPosted(s: State, order: int)
    requires Inv(s) && order > 0 && s.mode != NoReceipts
    ensures var t := Step(s, InitialTip(order));
      && t.lastSentDelivered == t.pendingDelivered >= order
      && (if Max(s.pendingDelivered, order) > s.lastSentDelivered
          then t.log == s.log + [IssuedDelivered(s.nextId, Max(s.pendingDelivered, order))]
          else t.log == s.log)
  {
  }

  /** Which retry an event schedules: a failure does while retries are left. */
  function Schedules(s: State, e: Event): Retry {
    if e.FailPost? && e.id in s.flights && s.retryAttempt < MAX_RETRIES then
      match s.flights[e.id]
      case DeliveredPost(_) => RetryDelivered
      case DeliveredFirst(_, _) => RetryRead
      case ReadReady(_) => NoRetry
      case ReadPost(_) => RetryRead
    else NoRetry
  }

  /** The kind of the last retry that was scheduled in a run, if any was. */
  function LastScheduled(s: State, events: seq<Event>): Retry {
    if events == [] then NoRetry
    else
      var front, last := events[..|events| - 1], events[|events| - 1];
      var retry := Schedules(Run(s, front), last);
      if retry != NoRetry then retry else LastScheduled(s, front)
  }

  predicate NoTimer(events: seq<Event>) {
    forall e :: e in events ==> !e.RetryTimerFires?
  }

  /** Both kinds of retry share one timer: until it fires, the last failure decides what it will do. */
  lemma {:induction false} TimerAfter(s: State, events: seq<Event>)
    requires NoTimer(events)
    ensures Run(s, events).retryTimer ==
      if LastScheduled(s, events) == NoRetry then s.retryTimer else LastScheduled(s, events)
  {
    if events != [] {
      var n := |events| - 1;
      assert events[n] in events;
      TimerAfter(s, events[..n]);
      TimerStep(Run(s, events[..n]), events[n]);
    }
  }

  lemma TimerStep(s: State, e: Event)
    requires !e.RetryTimerFires?
    ensures Step(s, e).retryTimer == if Schedules(s, e) == NoRetry then s.retryTimer else Schedules(s, e)
  {
  }

  /** Answers to POSTs, and orders scheduled for the debounce. */
  predicate IsAnswer(e: Event) {
    e.Succeed? || e.FailPost? || e.Continue? || e.ScheduleDelivered?
  }

  lemma {:induction false} AnswersKeepWatermark(s: State, events: seq<Event>)
    requires s.lastSentDelivered == 0 && s.lastSentRead >= 0 && forall e :: e in events ==> IsAnswer(e)
    ensures var t := Run(s, events);
      && t.lastSentDelivered == 0 && t.mode == s.mode && t.pendingDelivered >= s.pendingDelivered
      && t.lastSentRead >= 0
  {
    if events != [] {
      var n := |events| - 1;
      assert events[n] in events;
      AnswersKeepWatermark(s, events[..n]);
    }
  }

  /** In this step exactly one delivered POST is issued, of at least the pending watermark. */
  predicate IssuesWatermark(s: State, e: Event) {
    var t := Step(s, e);
    && t.log == s.log + [IssuedDelivered(s.nextId, t.lastSentDelivered)]
    && t.lastSentDelivered == t.pendingDelivered >= s.pendingDelivered
  }

  /** While retries are left, a failed delivered POST is issued again, up to date, when the retry timer fires,
      whatever is answered in between: exactly unless the last of those failures is a read flow's, which
      takes over the timer, and that flow does not itself post a delivered watermark first, because it is stale
      or receipts are not in full mode. */
  lemma FailedIsRetriedExactly(s: State, id: nat, events: seq<Event>)
    requires Inv(s) && s.mode != NoReceipts && s.retryAttempt < MAX_RETRIES && s.lastSentRead >= 0
    requires id in s.flights && s.flights[id] == DeliveredPost(s.lastSentDelivered)
    requires forall e :: e in events ==> IsAnswer(e)
    ensures var t := Step(s, FailPost(id));
      var u := Run(t, events);
      && u.pendingDelivered >= s.pendingDelivered
      && (IssuesWatermark(u, RetryTimerFires) <==>
            LastScheduled(t, events) != RetryRead || (u.mode == Full && u.pendingRead > u.lastSentRead))
  {
    var t := Step(s, FailPost(id));
    assert FlightOk(s.log, id, s.flights[id]);
    AnswersKeepWatermark(t, events);
    TimerAfter(t, events);
    TimerIssues(Run(t, events));
  }

  lemma TimerIssues(s: State)
    requires s.mode != NoReceipts && s.lastSentDelivered == 0 < s.pendingDelivered && s.lastSentRead >= 0
    requires s.retryTimer != NoRetry
    ensures IssuesWatermark(s, RetryTimerFires) <==>
      s.retryTimer == RetryDelivered || (s.mode == Full && s.pendingRead > s.lastSentRead)
  {
    if s.retryTimer == RetryRead && !(s.mode == Full && s.pendingRead > s.lastSentRead) {
      assert Step(s, RetryTimerFires).log == s.log;
    }
  }

  /** In every run the sent read watermark is at most the highest order seen. */
  lemma {:induction false} ReadWatermarkOk(mode: Mode, events: seq<Event>)
    ensures 0 <= Run(Opened(mode), events).lastSentRead <= Run(Opened(mode), events).pendingRead
  {
    if events != [] {
      var n := |events| - 1;
      ReadWatermarkOk(mode, events[..n]);
      ReadWatermarkStep(Run(Opened(mode), events[..n]), events[n]);
    }
  }

  lemma ReadWatermarkStep(s: State, e: Event)
    requires 0 <= s.lastSentRead <= s.pendingRead
    ensures 0 <= Step(s, e).lastSentRead <= Step(s, e).pendingRead
  {
  }

  /** A read flow for everything seen so far starts in this step. */
  predicate StartsRead(s: State, e: Event) {
    var t := Step(s, e);
    && s.nextId in t.flights && t.lastSentRead == s.pendingRead
    && match t.flights[s.nextId]
       case DeliveredFirst(_, read) => read == s.pendingRead
       case ReadReady(read) => read == s.pendingRead
       case _ => false
  }

  predicate IsQuiet(e: Event) {
    !e.RetryTimerFires? && !e.ScheduleRead? && !e.SetMode?
  }

  lemma {:induction false} QuietKeepsRead(s: State, events: seq<Event>)
    requires s.lastSentRead == 0 && forall e :: e in events ==> IsQuiet(e)
    ensures var t := Run(s, events); t.lastSentRead == 0 && t.pendingRead == s.pendingRead && t.mode == s.mode
  {
    if events != [] {
      var n := |events| - 1;
      assert events[n] in events;
      QuietKeepsRead(s, events[..n]);
    }
  }

  /** While retries are left, a failed read flow is started again when the retry timer fires, exactly unless
      the last failure since is a delivered flush's, which takes over the timer. Until the timer fires the thread
      is not looked at, or that would start it. */
  lemma ReadRetriedExactly(s: State, id: nat, events: seq<Event>)
    requires s.mode == Full && s.retryAttempt < MAX_RETRIES && 0 < s.lastSentRead <= s.pendingRead
    requires id in s.flights
    requires s.flights[id] == ReadPost(s.lastSentRead)
             || (s.flights[id].DeliveredFirst? && s.flights[id].read == s.lastSentRead)
    requires forall e :: e in events ==> IsQuiet(e)
    ensures var t := Step(s, FailPost(id));
      StartsRead(Run(t, events), RetryTimerFires) <==> LastScheduled(t, events) != RetryDelivered
  {
    var t := Step(s, FailPost(id));
    ReadFailureSchedules(s, id);
    QuietKeepsRead(t, events);
    TimerAfter(t, events);
    TimerStartsRead(Run(t, events));
  }

  lemma ReadFailureSchedules(s: State, id: nat)
    requires s.retryAttempt < MAX_RETRIES && id in s.flights
    requires s.flights[id] == ReadPost(s.lastSentRead)
             || (s.flights[id].DeliveredFirst? && s.flights[id].read == s.lastSentRead)
    ensures var t := Step(s, FailPost(id));
      t.lastSentRead == 0 && t.retryTimer == RetryRead && t.mode == s.mode && t.pendingRead == s.pendingRead
  {
  }

  lemma TimerStartsRead(s: State)
    requires s.mode == Full && s.lastSentRead == 0 < s.pendingRead && s.retryTimer != NoRetry
    ensures StartsRead(s, RetryTimerFires) <==> s.retryTimer == RetryRead
  {
    if s.retryTimer == RetryDelivered {
      assert Step(s, RetryTimerFires).lastSentRead == 0;
    }
  }

  lemma RunStep(s: State, events: seq<Event>, e: Event)
    ensures Run(s, events + [e]) == Step(Run(s, events), e)
  {
    assert (events + [e])[..|events|] == events;
  }

  function DisplacedRun(d: int, r: int): seq<Event> {
    [] + [InitialTip(d)] + [ScheduleRead(r)] + [FailPost(1)] + [FailPost(0)]
  }

  /** Runs in which a read retry is displaced: a delivered POST of d and a read flow of r are under way, the
      read flow fails, and then the other POST. What the timer then does starts no read flow. */
  lemma DisplacedReadRetry(d: int, r: int)
    requires 0 < d < r
    ensures var u := Run(Opened(Full), DisplacedRun(d, r));
      && u.retryTimer == RetryDelivered && u.lastSentRead == 0 && u.pendingRead == r
      && !StartsRead(u, RetryTimerFires)
  {
    var s := Opened(Full);
    RunStep(s, [], InitialTip(d));
    RunStep(s, [] + [InitialTip(d)], ScheduleRead(r));
    RunStep(s, [] + [InitialTip(d)] + [ScheduleRead(r)], FailPost(1));
    RunStep(s, [] + [InitialTip(d)] + [ScheduleRead(r)] + [FailPost(1)], FailPost(0));
    DisplacedState(d, r);
    TimerStartsRead(Run(s, DisplacedRun(d, r)));
  }

  lemma DisplacedState(d: int, r: int)
    requires 0 < d < r
    ensures var u := Step(Step(Step(Step(Opened(Full), InitialTip(d)), ScheduleRead(r)), FailPost(1)), FailPost(0));
      u.mode == Full && u.retryTimer == RetryDelivered && u.lastSentRead == 0 && u.pendingRead == r
  {
    var s2 := Step(Step(Opened(Full), InitialTip(d)), ScheduleRead(r));
    assert s2.flights == map[0 := DeliveredPost(d), 1 := DeliveredFirst(r, r)];
    var s3 := Step(s2, FailPost(1));
    assert s3.flights == map[0 := DeliveredPost(d)];
  }

  /** The flight goes on when its own POST is answered, or its continuation runs. */
  predicate Moves(e: Event, id: nat) {
    (e.Succeed? && e.id == id) || (e.FailPost? && e.id == id) || (e.Continue? && e.id == id)
  }

  lemma {:induction false} FlightWaits(s: State, events: seq<Event>, id: nat)
    requires id in s.flights && id < s.nextId && forall e :: e in events ==> !Moves(e, id)
    ensures var t := Run(s, events); id in t.flights && t.flights[id] == s.flights[id] && id < t.nextId
  {
    if events != [] {
      var n := |events| - 1;
      assert events[n] in events;
      FlightWaits(s, events[..n], id);
      FlightStays(Run(s, events[..n]), events[n], id);
    }
  }

  lemma FlightStays(s: State, e: Event, id: nat)
    requires id in s.flights && id < s.nextId && !Moves(e, id)
    ensures var t := Step(s, e); id in t.flights && t.flights[id] == s.flights[id] && id < t.nextId
  {
    match e
    case InitialTip(order) => FlightUnderFlush(s.(pendingDelivered := Max(s.pendingDelivered, order)), id);
    case DeliveredTimerFires => FlightUnderFlush(s.(deliveredTimer := false), id);
    case ScheduleRead(order) => FlightUnderFlush(s.(pendingRead := Max(s.pendingRead, order)), id);
    case RetryTimerFires => FlightUnderFlush(s.(retryTimer := NoRetry), id);
    case _ =>
  }

  lemma FlightUnderFlush(s: State, id: nat)
    requires id in s.flights && id < s.nextId
    ensures var t := FlushDelivered(s); id in t.flights && t.flights[id] == s.flights[id] && id < t.nextId
    ensures var t := FlushRead(s); id in t.flights && t.flights[id] == s.flights[id] && id < t.nextId
  {
  }

  /** Looking at the thread starts a read flow for the highest order seen, unless one has been started.
      However long its delivered POST and its continuation take, and whatever else happens, the flow then
      posts that order as read. */
  lemma SeenIsPosted(s: State, order: int, before: seq<Event>, between: seq<Event>)
    requires Inv(s) && s.mode == Full && order > 0 && Max(s.pendingRead, order) > s.lastSentRead
    requires forall e :: e in before + between ==> !Moves(e, s.nextId)
    ensures var t := Step(s, ScheduleRead(order));
      var u := Run(Step(Run(t, before), Succeed(s.nextId)), between);
      && t.lastSentRead == Max(s.pendingRead, order) && t.lastSentDelivered >= Max(s.pendingRead, order)
      && Step(u, Continue(s.nextId)).log == u.log + [IssuedRead(s.nextId, Max(s.pendingRead, order))]
  {
    var id, t := s.nextId, Step(s, ScheduleRead(order));
    forall e | e in before ensures !Moves(e, id) {
      assert e in before + between;
    }
    forall e | e in between ensures !Moves(e, id) {
      assert e in before + between;
    }
    FlightWaits(t, before, id);
    var answered := Step(Run(t, before), Succeed(id));
    assert answered.flights[id] == ReadReady(Max(s.pendingRead, order));
    FlightWaits(answered, between, id);
  }

  // ------------------------------------------------------------------- modes, and what is ignored

  /** A delivered POST is issued in this step. */
  ghost predicate IssuesDelivered(s: State, t: State) {
    exists i :: |s.log| <= i < |t.log| && t.log[i].IssuedDelivered?
  }

  /** With receipts off, a step issues no delivered POST and starts no flight. */
  lemma SilentWhenOff(s: State, e: Event)
    requires s.mode == NoReceipts
    ensures s.log <= Step(s, e).log && !IssuesDelivered(s, Step(s, e))
    ensures Step(s, e).nextId == s.nextId && forall id :: id in Step(s, e).flights ==> id in s.flights
  {
    if e.FailPost? {
      SilentFailure(s, e.id);
    }
  }

  lemma SilentFailure(s: State, id: nat)
    ensures var t := Step(s, FailPost(id));
      s.log <= t.log && !IssuesDelivered(s, t) && t.nextId == s.nextId && forall i :: i in t.flights ==> i in s.flights
  {
  }

  /** Outside full mode, a step starts no read flow. */
  lemma NoReadFlowUnlessFull(s: State, e: Event, id: nat)
    requires s.mode != Full && id in Step(s, e).flights && id !in s.flights
    ensures Step(s, e).flights[id].DeliveredPost?
  {
  }

  /** Over runs: whatever was switched before and after, what happens while receipts are off stays silent. */
  lemma SilentWhileOff(mode: Mode, events: seq<Event>, k: nat)
    requires k < |events| && Run(Opened(mode), events[..k]).mode == NoReceipts
    ensures var s, t := Run(Opened(mode), events[..k]), Run(Opened(mode), events[..k + 1]);
      s.log <= t.log && !IssuesDelivered(s, t) && t.nextId == s.nextId
  {
    assert events[..k + 1][..k] == events[..k];
    SilentWhenOff(Run(Opened(mode), events[..k]), events[k]);
  }

  /** A thread that is opened with receipts off, and left so, posts nothing at all. */
  lemma {:induction false} OffFromTheStart(events: seq<Event>)
    requires forall e :: e in events ==> !e.SetMode?
    ensures var t := Run(Opened(NoReceipts), events);
      t.mode == NoReceipts && t.log == [] && t.flights == map[]
  {
    if events != [] {
      var n := |events| - 1;
      assert events[n] in events;
      OffFromTheStart(events[..n]);
    }
  }

  /** In delivered-only mode, looking at the thread schedules what was seen as delivered, and nothing else. */
  lemma SeenIsDeliveredOnly(s: State, order: int)
    requires s.mode == DeliveredOnly && order > 0 && s.pendingRead >= 0
    ensures var t := Step(s, ScheduleRead(order));
      && t.pendingDelivered >= order && t.pendingDelivered >= s.pendingDelivered && t.deliveredTimer
      && t.log == s.log && t.flights == s.flights && t.lastSentRead == s.lastSentRead
  {
  }

  /** An order that is not positive is ignored, and so is a timer that is not set. */
  lemma Ignored(s: State, e: Event)
    requires (e.ScheduleDelivered? && e.order <= 0) || (e.ScheduleRead? && e.order <= 0)
             || (e.DeliveredTimerFires? && !s.deliveredTimer) || (e.RetryTimerFires? && s.retryTimer == NoRetry)
    ensures Step(s, e) == s
  {
  }

  /** A timer that has fired is set no more. */
  lemma FiredTimers(s: State)
    ensures !Step(s, DeliveredTimerFires).deliveredTimer
    ensures Step(s, RetryTimerFires).retryTimer == NoRetry
  {
  }

  /** A stale read flow that fails takes nothing back; and a read flow that posts a delivered watermark first
      makes the debounce unnecessary. */
  lemma StaleFailureKeepsWatermark(s: State, id: nat)
    requires id in s.flights
    requires (s.flights[id].ReadPost? || s.flights[id].DeliveredFirst?) && s.flights[id].read != s.lastSentRead
    ensures Step(s, FailPost(id)).lastSentRead == s.lastSentRead
    ensures Step(s, FailPost(id)).pendingRead == s.pendingRead
  {
  }

  lemma DeliveredFirstStopsDebounce(s: State, e: Event, id: nat)
    requires id in Step(s, e).flights && id !in s.flights && Step(s, e).flights[id].DeliveredFirst?
    ensures !Step(s, e).deliveredTimer
  {
  }

  /** The mode is the one set last. */
  lemma ModeFollows(s: State, e: Event)
    ensures Step(s, e).mode == if e.SetMode? then e.mode else s.mode
    ensures e.SetMode? ==> Step(s, e).(mode := s.mode) == s
  {
  }
}
