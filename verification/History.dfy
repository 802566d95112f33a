/** History bundles: a payload is split into chunks, and rebuilt from chunks that arrive in any order. */
module History {
  import opened Base
  import Hex

  const CHUNK_BYTES: int := 49152  // 48 KiB
  const CHUNK_TYPE := "myso-history-v1"

  datatype HistoryChunk = HistoryChunk(t: string, bundle: string, index: u32, total: u32, data: string)

  /** An application plaintext: the JSON of a chunk, or bytes that are not the JSON of one. */
  datatype Plaintext = Json(chunk: HistoryChunk) | NotAChunk

  datatype Slot = Slot(total: u32, parts: map<int, seq<byte>>)
  type Pending = map<string, Slot>
  type Bundle = (string, seq<byte>)

  // ---------------------------------------------------------------- splitting

  function Chunks(payload: seq<byte>): seq<seq<byte>> {
    if payload == [] then []
    else if |payload| <= CHUNK_BYTES then [payload]
    else [payload[..CHUNK_BYTES]] + Chunks(payload[CHUNK_BYTES..])
  }

  function Parts(payload: seq<byte>): seq<seq<byte>> {
    if payload == [] then [[]] else Chunks(payload)
  }

  /** The message of part i. Both counters are cast with `as u32`. */
  function Message(bundle: string, parts: seq<seq<byte>>, i: nat): Plaintext
    requires i < |parts|
  {
    Json(HistoryChunk(CHUNK_TYPE, bundle, AsU32(i), AsU32(|parts|), Hex.Encode(parts[i])))
  }

  function Split(bundle: string, payload: seq<byte>): seq<Plaintext> {
    var parts := Parts(payload);
    seq(|parts|, i requires 0 <= i < |parts| => Message(bundle, parts, i))
  }

  function ParseChunk(plaintext: Plaintext): Option<HistoryChunk> {
    match plaintext
    case NotAChunk => None
    case Json(c) => if c.t == CHUNK_TYPE && c.index < c.total && c.total > 0 then Some(c) else None
  }

  /** The cast `as u32`: the value itself when it fits, else its remainder. */
  function AsU32(n: nat): u32 {
    if n < U32 then n else n % U32
  }

  // ------------------------------------------------------------- reassembling

  /** The values of a map, concatenated in key order. */
  function Flatten(parts: map<int, seq<byte>>): seq<byte>
    decreases |parts|
  {
    if parts == map[] then []
    else
      LeastExists(parts.Keys);
      var k :| k in parts && forall i :: i in parts ==> k <= i;
      parts[k] + Flatten(parts - {k})
  }

  /** The slot of a bundle with a chunk entered into it; a first chunk opens the slot. */
  function Entered(pending: Pending, bundle: string, index: u32, total: u32, data: seq<byte>): map<int, seq<byte>> {
    (if bundle in pending then pending[bundle].parts else map[])[index := data]
  }

  predicate Refused(pending: Pending, bundle: string, total: u32) {
    bundle in pending && pending[bundle].total != total
  }

  /** The pending map after a decoded chunk. */
  function Absorb(pending: Pending, bundle: string, index: u32, total: u32, data: seq<byte>): Pending {
    if Refused(pending, bundle, total) then pending
    else
      var parts := Entered(pending, bundle, index, total, data);
      if AsU32(|parts|) != total then pending[bundle := Slot(total, parts)] else pending - {bundle}
  }

  /** What a decoded chunk makes the reassembler return. */
  function Emitted(pending: Pending, bundle: string, index: u32, total: u32, data: seq<byte>): Option<Bundle> {
    if Refused(pending, bundle, total) then None
    else
      var parts := Entered(pending, bundle, index, total, data);
      if AsU32(|parts|) != total then None else Some((bundle, Flatten(parts)))
  }

  /** What one `push` makes of the pending map, and what it returns. */
  function PushStep(pending: Pending, chunk: HistoryChunk): (Pending, Option<Bundle>) {
    match Hex.Decode(chunk.data)
    case None => (pending, None)
    case Some(data) => (Absorb(pending, chunk.bundle, chunk.index, chunk.total, data),
                        Emitted(pending, chunk.bundle, chunk.index, chunk.total, data))
  }

  /** Slots of bundles under way, updated by each arriving chunk. */
  class Reassembler {
    var pending: Pending

    constructor ()
      ensures pending == map[]
    {
      pending := map[];
    }

    method Push(chunk: HistoryChunk) returns (r: Option<Bundle>)
      modifies this
      ensures (pending, r) == PushStep(old(pending), chunk)
    {
      var data := Hex.Decode(chunk.data);
      if data.None? {
        return None;
      }
      if chunk.bundle !in pending {
        pending := pending[chunk.bundle := Slot(chunk.total, map[])];
      }
      var entry := pending[chunk.bundle];
      if entry.total != chunk.total {
        return None;
      }
      pending := pending[chunk.bundle := Slot(entry.total, entry.parts[chunk.index := data.value])];
      assert pending == old(pending)[chunk.bundle := pending[chunk.bundle]];
      if AsU32(|pending[chunk.bundle].parts|) != entry.total {
        return None;
      }
      var parts := pending[chunk.bundle].parts;
      pending := pending - {chunk.bundle};
      assert pending == old(pending) - {chunk.bundle};
      return Some((chunk.bundle, Flatten(parts)));
    }

    /** The bindings' entry point: an application plaintext is parsed, then pushed. */
    method Receive(plaintext: Plaintext) returns (r: Option<Bundle>)
      modifies this
      ensures (pending, r) == Receive1(old(pending), plaintext)
    {
      var chunk := ParseChunk(plaintext);
      if chunk.None? {
        return None;
      }
      r := Push(chunk.value);
    }
  }

  function Receive1(pending: Pending, plaintext: Plaintext): (Pending, Option<Bundle>) {
    var chunk := ParseChunk(plaintext);
    if chunk.None? then (pending, None) else PushStep(pending, chunk.value)
  }

  /** The pending map after a whole stream of plaintexts. */
  function After(pending: Pending, stream: seq<Plaintext>): Pending {
    if stream == [] then pending
    else Receive1(After(pending, stream[..|stream| - 1]), stream[|stream| - 1]).0
  }

  /** What the k-th plaintext of the stream makes the reassembler return. */
  function Output(pending: Pending, stream: seq<Plaintext>, k: nat): Option<Bundle>
    requires k < |stream|
  {
    Receive1(After(pending, stream[..k]), stream[k]).1
  }

  // ------------------------------------------------- invariant over every run

  /** Between 1 and total - 1 distinct indices, all below total. */
  ghost predicate SlotOk(slot: Slot) {
    && 1 <= |slot.parts| < slot.total
    && forall i :: i in slot.parts ==> 0 <= i < slot.total
  }

  ghost predicate PendingOk(pending: Pending) {
    forall b :: b in pending ==> SlotOk(pending[b])
  }

  /** When the slot's length reaches its total, every index below the total is present. */
  lemma FullSlot(parts: map<int, seq<byte>>, total: u32)
    requires forall i :: i in parts ==> 0 <= i < total
    ensures |parts| <= total
    ensures |parts| == total <==> parts.Keys == Below(total)
  {
    BelowCard(total);
    SubsetFull(parts.Keys, Below(total));
  }

  /** Whatever arrives, also from several senders or malformed, keeps every slot well formed. */
  lemma {:induction false} RunKeepsPendingOk(pending: Pending, stream: seq<Plaintext>)
    requires PendingOk(pending)
    ensures PendingOk(After(pending, stream))
  {
    if stream != [] {
      var k := |stream| - 1;
      RunKeepsPendingOk(pending, stream[..k]);
    }
  }

  // ------------------------------------------------------ facts about parts

  lemma {:induction false} ChunksFacts(payload: seq<byte>)
    requires payload != []
    ensures |Chunks(payload)| >= 1
    ensures forall i :: 0 <= i < |Chunks(payload)| ==> |Chunks(payload)[i]| <= CHUNK_BYTES
    ensures CHUNK_BYTES * (|Chunks(payload)| - 1) < |payload|
    ensures Join(Chunks(payload)) == payload
  {
    if |payload| > CHUNK_BYTES {
      var rest := payload[CHUNK_BYTES..];
      ChunksFacts(rest);
      var chunks := Chunks(payload);
      assert chunks[0] == payload[..CHUNK_BYTES] && chunks[1..] == Chunks(rest);
      assert forall i :: 1 <= i < |chunks| ==> chunks[i] == Chunks(rest)[i - 1];
      assert payload[..CHUNK_BYTES] + rest == payload;
    } else {
      assert Chunks(payload)[1..] == [];
      assert Join(Chunks(payload)) == payload + [];
    }
  }

  function Join(parts: seq<seq<byte>>): seq<byte> {
    if parts == [] then [] else parts[0] + Join(parts[1..])
  }

  lemma PartsFacts(payload: seq<byte>)
    ensures |Parts(payload)| >= 1
    ensures forall i :: 0 <= i < |Parts(payload)| ==> |Parts(payload)[i]| <= 48 * 1024
    ensures payload != [] ==> 48 * 1024 * (|Parts(payload)| - 1) < |payload|
    ensures Join(Parts(payload)) == payload
  {
    if payload == [] {
      var one: seq<seq<byte>> := [[]];
      assert Join(one) == one[0] + Join(one[1..]);
    } else {
      ChunksFacts(payload);
    }
  }

  /** The parts of index a and up, read off in key order, are the rest of the split. */
  lemma {:induction false} FlattenIsJoin(parts: map<int, seq<byte>>, all: seq<seq<byte>>, a: nat)
    requires a <= |all|
    requires forall i :: i in parts <==> a <= i < |all|
    requires forall i :: i in parts ==> parts[i] == all[i]
    ensures Flatten(parts) == Join(all[a..])
    decreases |all| - a
  {
    if a < |all| {
      assert a in parts;
      FlattenIsJoin(parts - {a}, all, a + 1);
      assert all[a..][1..] == all[a + 1..];
    } else {
      assert parts == map[];
    }
  }

  // ---------------------------------------- the reference: collect a set of indices

  /** The parts with the given indices. */
  ghost function PartsAt(all: seq<seq<byte>>, got: set<int>): map<int, seq<byte>>
    requires |all| < U32 && got <= Below(|all|)
  {
    map i | i in got :: all[i]
  }

  /** The slot of a bundle holds exactly the gathered parts; without any there is no slot. */
  ghost predicate Holds(pending: Pending, bundle: string, all: seq<seq<byte>>, got: set<int>) {
    && 0 < |all| < U32
    && got < Below(|all|)
    && (if got == {} then bundle !in pending
        else bundle in pending && pending[bundle] == Slot(|all|, PartsAt(all, got)))
  }

  /** One more index is gathered; a complete set starts over. */
  ghost function Gather(got: set<int>, n: nat, i: int): set<int> {
    if got + {i} == Below(n) then {} else got + {i}
  }

  /** The plaintext is one of the split's messages. For such a plaintext, Index is its index. */
  ghost predicate FromSplit(bundle: string, payload: seq<byte>, item: Plaintext) {
    item in Split(bundle, payload)
  }

  /** A parsed plaintext of the bundle whose hex decodes: the only kind that can touch its slot. */
  ghost predicate Touches(bundle: string, item: Plaintext) {
    && item.Json? && item.chunk.t == "myso-history-v1" && item.chunk.index < item.chunk.total
    && item.chunk.bundle == bundle && Hex.Decode(item.chunk.data).Some?
  }

  /** The indices gathered since the bundle was last completed, computed from the indices alone. */
  ghost function Gathered(bundle: string, payload: seq<byte>, stream: seq<Plaintext>): set<int> {
    if stream == [] then {}
    else
      var got := Gathered(bundle, payload, stream[..|stream| - 1]);
      var item := stream[|stream| - 1];
      if FromSplit(bundle, payload, item) then Gather(got, |Parts(payload)|, item.chunk.index) else got
  }

  /** This plaintext supplies the last index still missing. */
  ghost predicate Completes(bundle: string, payload: seq<byte>, got: set<int>, item: Plaintext) {
    FromSplit(bundle, payload, item) && got + {item.chunk.index} == Below(|Parts(payload)|)
  }

  /** What may be mixed in: chunks of this split, anything that cannot touch the slot
      (other bundles, bad hex, unparsable text), and wrong totals once a good chunk is held. */
  ghost predicate Tolerable(bundle: string, payload: seq<byte>, got: set<int>, item: Plaintext) {
    Touches(bundle, item) ==>
      || FromSplit(bundle, payload, item)
      || (got != {} && item.chunk.total != |Parts(payload)|)
  }

  ghost predicate TolerableStream(bundle: string, payload: seq<byte>, stream: seq<Plaintext>) {
    forall k :: 0 <= k < |stream| ==>
      Tolerable(bundle, payload, Gathered(bundle, payload, stream[..k]), stream[k])
  }

  /** A message of a split parses, and its hex is the part with its index. */
  lemma SplitMember(bundle: string, payload: seq<byte>, item: Plaintext)
    requires FromSplit(bundle, payload, item) && |Parts(payload)| < U32
    ensures item.Json? && ParseChunk(item) == Some(item.chunk)
    ensures item.chunk.bundle == bundle && item.chunk.total == |Parts(payload)|
    ensures item.chunk.index < |Parts(payload)|
    ensures Hex.Decode(item.chunk.data) == Some(Parts(payload)[item.chunk.index])
    ensures item == Split(bundle, payload)[item.chunk.index]
  {
    var parts := Parts(payload);
    var i :| 0 <= i < |parts| && item == Split(bundle, payload)[i];
    MessageFields(bundle, parts, i);
  }

  lemma MessageFields(bundle: string, parts: seq<seq<byte>>, i: nat)
    requires i < |parts| < U32
    ensures var c := Message(bundle, parts, i).chunk;
      && ParseChunk(Message(bundle, parts, i)) == Some(c)
      && c.bundle == bundle && c.total == |parts| && c.index == i && Hex.Decode(c.data) == Some(parts[i])
  {
    Hex.RoundTrip(parts[i]);
  }

  lemma EnteredTracks(pending: Pending, bundle: string, all: seq<seq<byte>>, got: set<int>, i: u32)
    requires Holds(pending, bundle, all, got) && i < |all|
    ensures got + {i} <= Below(|all|)
    ensures var parts := Entered(pending, bundle, i, |all|, all[i]);
      && parts == PartsAt(all, got + {i})
      && AsU32(|parts|) <= |all|
      && (AsU32(|parts|) == |all| <==> got + {i} == Below(|all|))
  {
    var parts := Entered(pending, bundle, i, |all|, all[i]);
    assert parts == PartsAt(all, got + {i});
    assert parts.Keys == got + {i};
    FullSlot(parts, |all|);
  }

  /** Entering part i moves the slot from one gathered set to the next. */
  lemma AbsorbTracks(pending: Pending, bundle: string, all: seq<seq<byte>>, got: set<int>, i: u32)
    requires Holds(pending, bundle, all, got) && i < |all|
    ensures Holds(Absorb(pending, bundle, i, |all|, all[i]), bundle, all, Gather(got, |all|, i))
  {
    EnteredTracks(pending, bundle, all, got, i);
    var next := Absorb(pending, bundle, i, |all|, all[i]);
    if got + {i} == Below(|all|) {
      assert next == pending - {bundle};
    } else {
      assert i in got + {i};
      assert next == pending[bundle := Slot(|all|, PartsAt(all, got + {i}))];
    }
  }

  lemma EmittedTracks(pending: Pending, bundle: string, all: seq<seq<byte>>, got: set<int>, i: u32)
    requires Holds(pending, bundle, all, got) && i < |all|
    ensures Emitted(pending, bundle, i, |all|, all[i]) ==
      if got + {i} == Below(|all|) then Some((bundle, Join(all))) else None
  {
    EnteredTracks(pending, bundle, all, got, i);
    if got + {i} == Below(|all|) {
      FlattenIsJoin(PartsAt(all, got + {i}), all, 0);
      assert all[0..] == all;
    }
  }

  /** One step of the reassembler follows one step of the reference. */
  lemma StepTracks(pending: Pending, bundle: string, payload: seq<byte>, got: set<int>, item: Plaintext)
    requires Holds(pending, bundle, Parts(payload), got)
    requires Tolerable(bundle, payload, got, item)
    ensures Holds(Receive1(pending, item).0, bundle, Parts(payload),
                  if FromSplit(bundle, payload, item)
                  then Gather(got, |Parts(payload)|, item.chunk.index) else got)
    ensures var out := Receive1(pending, item).1;
      if Completes(bundle, payload, got, item) then out == Some((bundle, payload))
      else out.Some? ==> out.value.0 != bundle
  {
    if FromSplit(bundle, payload, item) {
      SplitMember(bundle, payload, item);
      PartsFacts(payload);
      AbsorbTracks(pending, bundle, Parts(payload), got, item.chunk.index);
      EmittedTracks(pending, bundle, Parts(payload), got, item.chunk.index);
    }
  }

  lemma {:induction false} RunTracks(pending: Pending, bundle: string, payload: seq<byte>, stream: seq<Plaintext>)
    requires bundle !in pending && |Parts(payload)| < U32
    requires TolerableStream(bundle, payload, stream)
    ensures Holds(After(pending, stream), bundle, Parts(payload), Gathered(bundle, payload, stream))
  {
    PartsFacts(payload);
    if stream == [] {
      assert 0 in Below(|Parts(payload)|);
    } else {
      var k := |stream| - 1;
      PrefixTolerable(bundle, payload, stream, k);
      RunTracks(pending, bundle, payload, stream[..k]);
      StepTracks(After(pending, stream[..k]), bundle, payload, Gathered(bundle, payload, stream[..k]), stream[k]);
    }
  }

  lemma PrefixTolerable(bundle: string, payload: seq<byte>, stream: seq<Plaintext>, k: nat)
    requires k <= |stream| && TolerableStream(bundle, payload, stream)
    ensures TolerableStream(bundle, payload, stream[..k])
  {
    forall j | 0 <= j < k
      ensures Tolerable(bundle, payload, Gathered(bundle, payload, stream[..k][..j]), stream[..k][j])
    {
      assert stream[..k][..j] == stream[..j];
    }
  }

  /** Refinement: at every position of every tolerable stream, the reassembler emits the payload
      exactly when the reference set becomes complete there, and otherwise nothing for the bundle. */
  lemma OutputTracks(pending: Pending, bundle: string, payload: seq<byte>, stream: seq<Plaintext>, k: nat)
    requires k < |stream| && bundle !in pending && |Parts(payload)| < U32
    requires TolerableStream(bundle, payload, stream)
    ensures var out := Output(pending, stream, k);
      if Completes(bundle, payload, Gathered(bundle, payload, stream[..k]), stream[k])
      then out == Some((bundle, payload))
      else out.Some? ==> out.value.0 != bundle
  {
    PrefixTolerable(bundle, payload, stream, k);
    RunTracks(pending, bundle, payload, stream[..k]);
    StepTracks(After(pending, stream[..k]), bundle, payload, Gathered(bundle, payload, stream[..k]), stream[k]);
  }

  // ------------------------------------------------------------- main results

  /** A stream over a lossy, duplicating, reordering channel shared by many senders:
      whatever chunk of a known bundle arrives was produced by the split of that bundle's payload. */
  ghost predicate HonestStream(payloads: map<string, seq<byte>>, stream: seq<Plaintext>) {
    forall k, b :: 0 <= k < |stream| && Touches(b, stream[k]) ==>
      b in payloads && FromSplit(b, payloads[b], stream[k])
  }

  /** Safety over whole runs: every bundle returned is the payload that its sender split. */
  lemma OnlySentPayloads(payloads: map<string, seq<byte>>, stream: seq<Plaintext>, k: nat)
    requires k < |stream| && HonestStream(payloads, stream)
    requires forall b :: b in payloads ==> |Parts(payloads[b])| < U32
    ensures var out := Output(map[], stream, k);
      out.Some? ==> out.value.0 in payloads && out.value.1 == payloads[out.value.0]
  {
    var out := Output(map[], stream, k);
    if out.Some? {
      var b := out.value.0;
      assert Touches(b, stream[k]);
      assert TolerableStream(b, payloads[b], stream);
      OutputTracks(map[], b, payloads[b], stream, k);
    }
  }

  /** Every index of the split has occurred in the stream. */
  ghost function Seen(bundle: string, payload: seq<byte>, stream: seq<Plaintext>): set<int> {
    if stream == [] then {}
    else
      var seen := Seen(bundle, payload, stream[..|stream| - 1]);
      var item := stream[|stream| - 1];
      if FromSplit(bundle, payload, item) then seen + {item.chunk.index} else seen
  }

  ghost predicate Delivered(bundle: string, payload: seq<byte>, stream: seq<Plaintext>) {
    forall i :: 0 <= i < |Split(bundle, payload)| ==> Split(bundle, payload)[i] in stream
  }

  lemma {:induction false} SeenMeansOccurs(bundle: string, payload: seq<byte>, stream: seq<Plaintext>, i: int)
    requires |Parts(payload)| < U32
    ensures i in Seen(bundle, payload, stream) <==>
      0 <= i < |Split(bundle, payload)| && Split(bundle, payload)[i] in stream
  {
    if stream != [] {
      var k := |stream| - 1;
      var item := stream[k];
      SeenMeansOccurs(bundle, payload, stream[..k], i);
      assert stream == stream[..k] + [item];
      if FromSplit(bundle, payload, item) {
        SplitMember(bundle, payload, item);
      }
      if 0 <= i < |Parts(payload)| && Split(bundle, payload)[i] == item {
        MessageFields(bundle, Parts(payload), i);
      }
    }
  }

  lemma DeliveredMeansSeen(bundle: string, payload: seq<byte>, stream: seq<Plaintext>)
    requires |Parts(payload)| < U32
    ensures Delivered(bundle, payload, stream) <==> Seen(bundle, payload, stream) == Below(|Parts(payload)|)
  {
    forall i ensures i in Seen(bundle, payload, stream) <==>
        0 <= i < |Split(bundle, payload)| && Split(bundle, payload)[i] in stream
    {
      SeenMeansOccurs(bundle, payload, stream, i);
    }
  }

  lemma {:induction false} SeenGrows(bundle: string, payload: seq<byte>, stream: seq<Plaintext>, k: nat)
    requires k <= |stream|
    ensures Seen(bundle, payload, stream[..k]) <= Seen(bundle, payload, stream)
  {
    if k < |stream| {
      SeenGrows(bundle, payload, stream[..|stream| - 1], k);
      assert stream[..|stream| - 1][..k] == stream[..k];
    } else {
      assert stream[..k] == stream;
    }
  }

  /** Until everything has been seen once, the gathered set is the set of seen indices. */
  lemma {:induction false} GatheredIsSeen(bundle: string, payload: seq<byte>, stream: seq<Plaintext>)
    requires |Parts(payload)| < U32
    requires Seen(bundle, payload, stream) < Below(|Parts(payload)|)
    ensures Gathered(bundle, payload, stream) == Seen(bundle, payload, stream)
  {
    if stream != [] {
      var k := |stream| - 1;
      SeenGrows(bundle, payload, stream, k);
      GatheredIsSeen(bundle, payload, stream[..k]);
    }
  }

  lemma {:induction false} SeenInRange(bundle: string, payload: seq<byte>, stream: seq<Plaintext>)
    requires |Parts(payload)| < U32
    ensures Seen(bundle, payload, stream) <= Below(|Parts(payload)|)
  {
    if stream != [] {
      SeenInRange(bundle, payload, stream[..|stream| - 1]);
      var item := stream[|stream| - 1];
      if FromSplit(bundle, payload, item) {
        SplitMember(bundle, payload, item);
      }
    }
  }

  /** Nothing is returned for the bundle at this position. */
  ghost predicate SilentAt(pending: Pending, bundle: string, stream: seq<Plaintext>, k: nat)
    requires k < |stream|
  {
    Output(pending, stream, k).Some? ==> Output(pending, stream, k).value.0 != bundle
  }

  lemma NothingBeforeDelivery(pending: Pending, bundle: string, payload: seq<byte>, stream: seq<Plaintext>, k: nat)
    requires bundle !in pending && |Parts(payload)| < U32
    requires TolerableStream(bundle, payload, stream)
    requires k < |stream| && Seen(bundle, payload, stream[..k + 1]) < Below(|Parts(payload)|)
    ensures SilentAt(pending, bundle, stream, k)
  {
    assert stream[..k + 1][..k] == stream[..k];
    SeenGrows(bundle, payload, stream[..k + 1], k);
    GatheredIsSeen(bundle, payload, stream[..k]);
    OutputTracks(pending, bundle, payload, stream, k);
  }

  lemma LastYields(pending: Pending, bundle: string, payload: seq<byte>, stream: seq<Plaintext>)
    requires bundle !in pending && |Parts(payload)| < U32
    requires TolerableStream(bundle, payload, stream)
    requires stream != [] && Seen(bundle, payload, stream) == Below(|Parts(payload)|)
    requires Seen(bundle, payload, stream[..|stream| - 1]) < Below(|Parts(payload)|)
    ensures Output(pending, stream, |stream| - 1) == Some((bundle, payload))
  {
    GatheredIsSeen(bundle, payload, stream[..|stream| - 1]);
    OutputTracks(pending, bundle, payload, stream, |stream| - 1);
  }

  lemma NotYetDelivered(bundle: string, payload: seq<byte>, stream: seq<Plaintext>, n: nat)
    requires |Parts(payload)| < U32 && n <= |stream| && !Delivered(bundle, payload, stream)
    ensures Seen(bundle, payload, stream[..n]) < Below(|Parts(payload)|)
  {
    DeliveredMeansSeen(bundle, payload, stream);
    SeenInRange(bundle, payload, stream);
    SeenGrows(bundle, payload, stream, n);
  }

  lemma SilentBefore(pending: Pending, bundle: string, payload: seq<byte>, stream: seq<Plaintext>, k: nat)
    requires bundle !in pending && |Parts(payload)| < U32
    requires TolerableStream(bundle, payload, stream)
    requires k < |stream| - 1 && !Delivered(bundle, payload, stream[..|stream| - 1])
    ensures SilentAt(pending, bundle, stream, k)
  {
    var front := stream[..|stream| - 1];
    assert front[..k + 1] == stream[..k + 1];
    NotYetDelivered(bundle, payload, front, k + 1);
    NothingBeforeDelivery(pending, bundle, payload, stream, k);
  }

  lemma LastOneYields(pending: Pending, bundle: string, payload: seq<byte>, stream: seq<Plaintext>)
    requires bundle !in pending && |Parts(payload)| < U32
    requires TolerableStream(bundle, payload, stream)
    requires stream != [] && Delivered(bundle, payload, stream)
    requires !Delivered(bundle, payload, stream[..|stream| - 1])
    ensures Output(pending, stream, |stream| - 1) == Some((bundle, payload))
  {
    var front := stream[..|stream| - 1];
    NotYetDelivered(bundle, payload, front, |front|);
    assert front[..|front|] == front;
    DeliveredMeansSeen(bundle, payload, stream);
    LastYields(pending, bundle, payload, stream);
  }

  /** Completeness: the push that supplies the last missing chunk returns exactly the bundle,
      and every earlier push returned nothing for it. */
  lemma LastMissingChunkYields(pending: Pending, bundle: string, payload: seq<byte>, stream: seq<Plaintext>)
    requires bundle !in pending && |Parts(payload)| < U32
    requires TolerableStream(bundle, payload, stream)
    requires stream != [] && Delivered(bundle, payload, stream)
    requires !Delivered(bundle, payload, stream[..|stream| - 1])
    ensures Output(pending, stream, |stream| - 1) == Some((bundle, payload))
    ensures forall k :: 0 <= k < |stream| - 1 ==> SilentAt(pending, bundle, stream, k)
  {
    LastOneYields(pending, bundle, payload, stream);
    forall k | 0 <= k < |stream| - 1 ensures SilentAt(pending, bundle, stream, k) {
      SilentBefore(pending, bundle, payload, stream, k);
    }
  }

  // ------------------------------------------------------ what one plaintext does, whoever sent it

  /** The parts of the bundle's slot. */
  function Held(pending: Pending, bundle: string): map<int, seq<byte>> {
    if bundle in pending then pending[bundle].parts else map[]
  }

  /** A text that is no chunk, says a total of its own, or does not decode changes nothing. */
  lemma IgnoredPlaintext(pending: Pending, item: Plaintext)
    requires item.Json? ==> !Touches(item.chunk.bundle, item)
                            || (item.chunk.bundle in pending && pending[item.chunk.bundle].total != item.chunk.total)
    ensures Receive1(pending, item) == (pending, None)
  {
  }

  /** Any other chunk, also one that contradicts an earlier copy of its index: it replaces that copy, and touches
      no other index and no other bundle. The chunk that makes the number of indices equal to the total ends the
      slot, and the bundle is what the slot then holds. */
  lemma TakenPlaintext(pending: Pending, item: Plaintext)
    requires PendingOk(pending) && item.Json? && Touches(item.chunk.bundle, item)
    requires item.chunk.bundle in pending ==> pending[item.chunk.bundle].total == item.chunk.total
    ensures var (next, out) := Receive1(pending, item);
      var (c, data) := (item.chunk, Hex.Decode(item.chunk.data).value);
      var parts := Held(pending, c.bundle)[c.index := data];
      && (forall b :: b != c.bundle ==> (b in next <==> b in pending) && (b in pending ==> next[b] == pending[b]))
      && (if |parts| == c.total
          then c.bundle !in next && out == Some((c.bundle, Flatten(parts)))
          else c.bundle in next && next[c.bundle] == Slot(c.total, parts) && out == None)
  {
    var c := item.chunk;
    var parts := Held(pending, c.bundle)[c.index := Hex.Decode(c.data).value];
    FullSlot(parts, c.total);
  }

  // ------------------------------------------------------------- a claimed slot

  /** Whatever in the stream can touch the bundle's slot says another total than it has. */
  ghost predicate OtherTotals(bundle: string, total: u32, stream: seq<Plaintext>) {
    forall k :: 0 <= k < |stream| && Touches(bundle, stream[k]) ==> stream[k].chunk.total != total
  }

  /** A total that arrived first claims the slot: chunks with another total are refused, and yield nothing,
      for as long as none with the slot's own total arrives. */
  lemma {:induction false} ClaimedSlotStays(pending: Pending, bundle: string, stream: seq<Plaintext>, k: nat)
    requires bundle in pending && OtherTotals(bundle, pending[bundle].total, stream) && k < |stream|
    ensures bundle in After(pending, stream[..k]) && After(pending, stream[..k])[bundle] == pending[bundle]
    ensures SilentAt(pending, bundle, stream, k)
  {
    if k > 0 {
      ClaimedSlotStays(pending, bundle, stream, k - 1);
      assert stream[..k][..k - 1] == stream[..k - 1];
    }
  }

  /** So the chunks of a split are all refused when another total has claimed their slot. */
  lemma WrongTotalFirst(pending: Pending, bundle: string, payload: seq<byte>, stream: seq<Plaintext>, k: nat)
    requires bundle in pending && pending[bundle].total != |Parts(payload)| < U32
    requires SplitOnly(bundle, payload, stream) && k < |stream|
    ensures SilentAt(pending, bundle, stream, k)
  {
    forall j | 0 <= j < |stream| && Touches(bundle, stream[j])
      ensures stream[j].chunk.total != pending[bundle].total
    {
      SplitMember(bundle, payload, stream[j]);
    }
    ClaimedSlotStays(pending, bundle, stream, k);
  }

  // ----------------------------------------------- the limit set by the u32 counters

  /** All that a slot fed by an oversized split can hold. */
  ghost predicate SmallParts(pending: Pending, bundle: string) {
    bundle in pending ==>
      forall i :: i in pending[bundle].parts ==> |pending[bundle].parts[i]| <= CHUNK_BYTES
  }

  lemma {:induction false} FlattenLength(parts: map<int, seq<byte>>)
    requires forall i :: i in parts ==> |parts[i]| <= CHUNK_BYTES
    ensures |Flatten(parts)| <= CHUNK_BYTES * |parts|
    decreases |parts|
  {
    if parts != map[] {
      LeastExists(parts.Keys);
      var k :| k in parts && forall i :: i in parts ==> k <= i;
      var rest := parts - {k};
      assert |rest| == |parts| - 1 by { assert rest.Keys == parts.Keys - {k}; }
      FlattenLength(rest);
    }
  }

  ghost predicate SplitOnly(bundle: string, payload: seq<byte>, stream: seq<Plaintext>) {
    forall k :: 0 <= k < |stream| && Touches(bundle, stream[k]) ==> FromSplit(bundle, payload, stream[k])
  }

  lemma SplitDataIsSmall(bundle: string, payload: seq<byte>, item: Plaintext)
    requires FromSplit(bundle, payload, item)
    ensures item.Json? && Hex.Decode(item.chunk.data).Some?
    ensures |Hex.Decode(item.chunk.data).value| <= CHUNK_BYTES
  {
    var i :| 0 <= i < |Parts(payload)| && item == Split(bundle, payload)[i];
    Hex.RoundTrip(Parts(payload)[i]);
    PartsFacts(payload);
  }

  lemma {:induction false} RunKeepsSmall(pending: Pending, bundle: string, payload: seq<byte>, stream: seq<Plaintext>)
    requires bundle !in pending && SplitOnly(bundle, payload, stream)
    ensures SmallParts(After(pending, stream), bundle)
  {
    if stream != [] {
      var k := |stream| - 1;
      RunKeepsSmall(pending, bundle, payload, stream[..k]);
      ReceiveKeepsSmall(After(pending, stream[..k]), bundle, payload, stream[k]);
    }
  }

  lemma ReceiveKeepsSmall(pending: Pending, bundle: string, payload: seq<byte>, item: Plaintext)
    requires SmallParts(pending, bundle)
    requires Touches(bundle, item) ==> FromSplit(bundle, payload, item)
    ensures SmallParts(Receive1(pending, item).0, bundle)
  {
    if Touches(bundle, item) {
      SplitDataIsSmall(bundle, payload, item);
    }
  }

  lemma StepYieldsLittle(before: Pending, bundle: string, payload: seq<byte>, item: Plaintext)
    requires PendingOk(before) && SmallParts(before, bundle) && |Parts(payload)| >= U32
    requires Touches(bundle, item) ==> FromSplit(bundle, payload, item)
    ensures Receive1(before, item).1 != Some((bundle, payload))
  {
    PartsFacts(payload);
    if Touches(bundle, item) {
      SplitDataIsSmall(bundle, payload, item);
      var c := item.chunk;
      AbsorbYieldsLittle(before, bundle, c.index, c.total, Hex.Decode(c.data).value);
    }
  }

  /** A split into 2^32 parts or more is never rebuilt: the counters wrap, and what a full slot
      yields is shorter than the payload. */
  lemma OversizedNeverYields(pending: Pending, bundle: string, payload: seq<byte>, stream: seq<Plaintext>, k: nat)
    requires PendingOk(pending) && bundle !in pending && SplitOnly(bundle, payload, stream)
    requires |Parts(payload)| >= U32 && k < |stream|
    ensures Output(pending, stream, k) != Some((bundle, payload))
  {
    RunKeepsSmall(pending, bundle, payload, stream[..k]);
    RunKeepsPendingOk(pending, stream[..k]);
    StepYieldsLittle(After(pending, stream[..k]), bundle, payload, stream[k]);
  }

  lemma AbsorbYieldsLittle(pending: Pending, bundle: string, index: u32, total: u32, data: seq<byte>)
    requires PendingOk(pending) && SmallParts(pending, bundle) && index < total && |data| <= CHUNK_BYTES
    ensures var out := Emitted(pending, bundle, index, total, data);
      out.Some? ==> |out.value.1| <= CHUNK_BYTES * total
  {
    if !Refused(pending, bundle, total) {
      var parts := Entered(pending, bundle, index, total, data);
      FullSlot(parts, total);
      FlattenLength(parts);
    }
  }

  /** A reassembler that is fed the stream returns the bundle at the end. */
  ghost predicate Rebuilds(pending: Pending, stream: seq<Plaintext>, bundle: string, payload: seq<byte>) {
    stream != [] && Output(pending, stream, |stream| - 1) == Some((bundle, payload))
  }

  lemma DeliveryRebuilds(pending: Pending, bundle: string, payload: seq<byte>, stream: seq<Plaintext>)
    requires bundle !in pending && |Parts(payload)| < U32
    requires TolerableStream(bundle, payload, stream)
    requires stream != [] && Delivered(bundle, payload, stream)
    requires !Delivered(bundle, payload, stream[..|stream| - 1])
    ensures Rebuilds(pending, stream, bundle, payload)
  {
    LastOneYields(pending, bundle, payload, stream);
  }

  lemma SmallSplitRebuilds(pending: Pending, bundle: string, payload: seq<byte>)
    requires bundle !in pending && |Parts(payload)| < U32
    ensures Rebuilds(pending, Split(bundle, payload), bundle, payload)
  {
    DeliveryRebuilds(pending, bundle, payload, Split(bundle, payload));
  }

  lemma OversizedNeverRebuilds(pending: Pending, bundle: string, payload: seq<byte>, stream: seq<Plaintext>)
    requires PendingOk(pending) && bundle !in pending && SplitOnly(bundle, payload, stream)
    requires |Parts(payload)| >= U32
    ensures !Rebuilds(pending, stream, bundle, payload)
  {
    if stream != [] {
      OversizedNeverYields(pending, bundle, payload, stream, |stream| - 1);
    }
  }

  /** Round trip, exactly when it holds: sending the chunks of a split in order to a fresh
      reassembler rebuilds the bundle if and only if there are fewer than 2^32 chunks. */
  lemma SplitRoundTrip(bundle: string, payload: seq<byte>)
    ensures Rebuilds(map[], Split(bundle, payload), bundle, payload) <==> |Split(bundle, payload)| < U32
  {
    if |Parts(payload)| < U32 {
      SmallSplitRebuilds(map[], bundle, payload);
    } else {
      OversizedNeverRebuilds(map[], bundle, payload, Split(bundle, payload));
    }
  }
}
