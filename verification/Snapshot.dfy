/** The device snapshot: a length-prefixed binary form of signer, identity and key/value store. */
module Snapshot {
  import opened Base
  import Certificate
  import Hex
  import Text

  type bytes = seq<byte>

  /** b"MYSOMLS1" */
  const MAGIC: bytes := [0x4d, 0x59, 0x53, 0x4f, 0x4d, 0x4c, 0x53, 0x31]

  /** `signer` is the TLS form of the signature key pair. */
  datatype DeviceState = DeviceState(signer: bytes, identity: bytes, values: map<bytes, bytes>)

  /** The libraries around the codec: which bytes `tls_deserialize_exact` accepts as a key pair,
      the public key of a key pair, and the certificate in an identity's JSON. */
  datatype Platform = Platform(
    accepts: bytes -> bool,
    publicKey: bytes -> bytes,
    certificate: bytes -> Option<Certificate.DeviceCertificate>,
    usizeMax: int)

  /** `usize` has 32 bits in the web build and 64 bits elsewhere. */
  ghost predicate PlatformOk(p: Platform) {
    p.usizeMax == U32 - 1 || p.usizeMax == U32 * U32 - 1
  }

  // ------------------------------------------------------------ fixed-width integers

  /** `to_be_bytes` of the low 32 bits. */
  function Be32(n: nat): (b: bytes)
    ensures |b| == 4
  {
    [n / 256 / 256 / 256 % 256, n / 256 / 256 % 256, n / 256 % 256, n % 256]
  }

  /** `u32::from_be_bytes` */
  function FromBe32(b: bytes): u32
    requires |b| == 4
  {
    var b0: int, b1: int, b2: int, b3: int := b[0], b[1], b[2], b[3];
    ((b0 * 256 + b1) * 256 + b2) * 256 + b3
  }

  /** `to_be_bytes` of the low 64 bits. */
  function Be64(n: nat): (b: bytes)
    ensures |b| == 8
  {
    Be32(n / U32) + Be32(n % U32)
  }

  /** `u64::from_be_bytes` */
  function FromBe64(b: bytes): nat
    requires |b| == 8
  {
    FromBe32(b[..4]) * U32 + FromBe32(b[4..])
  }

  // ---------------------------------------------------------------------- writing

  function Field(part: bytes): bytes {
    Be32(|part|) + part
  }

  function Entry(k: bytes, v: bytes): bytes {
    Be32(|k|) + Be32(|v|) + k + v
  }

  function Entries(order: seq<(bytes, bytes)>): bytes {
    if order == [] then [] else Entry(order[0].0, order[0].1) + Entries(order[1..])
  }

  /** The snapshot, for one order in which the store was iterated. */
  function Encode(signer: bytes, identity: bytes, order: seq<(bytes, bytes)>): bytes {
    EncodeCount(signer, identity, |order|, order)
  }

  /** The same with any number in the count field. */
  function EncodeCount(signer: bytes, identity: bytes, count: nat, order: seq<(bytes, bytes)>): bytes {
    MAGIC + (Field(signer) + (Field(identity) + (Be64(count) + Entries(order))))
  }

  function ToMap(order: seq<(bytes, bytes)>, acc: map<bytes, bytes>): map<bytes, bytes> {
    if order == [] then acc else ToMap(order[1..], acc[order[0].0 := order[0].1])
  }

  /** The sequence lists every entry of the map once. */
  ghost predicate Enumerates(order: seq<(bytes, bytes)>, values: map<bytes, bytes>) {
    && |order| == |values|
    && ToMap(order, map[]) == values
  }

  // ---------------------------------------------------------------------- reading

  /** The cursor steps of `take`: n bytes at the cursor, or None past the end. */
  function TakeAt(b: bytes, at: nat, n: nat): Option<bytes>
    requires at <= |b|
  {
    if at + n <= |b| then Some(b[at..at + n]) else None
  }

  /** A length-prefixed part, and the cursor behind it. */
  function PartAt(b: bytes, at: nat): (r: Option<(bytes, nat)>)
    requires at <= |b|
    ensures r.Some? ==> at <= r.value.1 <= |b|
  {
    if at + 4 > |b| then None
    else
      var n := FromBe32(b[at..at + 4]);
      if at + 4 + n > |b| then None else Some((b[at + 4..at + 4 + n], at + 4 + n))
  }

  /** A key, a value, and the cursor behind them. */
  function EntryAt(b: bytes, at: nat): (r: Option<(bytes, bytes, nat)>)
    requires at <= |b|
    ensures r.Some? ==> at + 8 <= r.value.2 <= |b|
  {
    if at + 8 > |b| then None
    else
      var k := FromBe32(b[at..at + 4]);
      var v := FromBe32(b[at + 4..at + 8]);
      if at + 8 + k + v > |b| then None
      else Some((b[at + 8..at + 8 + k], b[at + 8 + k..at + 8 + k + v], at + 8 + k + v))
  }

  /** Reads count entries; later entries overwrite earlier ones with the same key. */
  function EntriesAt(b: bytes, at: nat, count: nat, acc: map<bytes, bytes>): (r: Option<(map<bytes, bytes>, nat)>)
    requires at <= |b|
    ensures r.Some? ==> at + 8 * count <= r.value.1 <= |b|
    decreases count
  {
    if count == 0 then Some((acc, at))
    else
      var e := EntryAt(b, at);
      if e.None? then None else EntriesAt(b, e.value.2, count - 1, acc[e.value.0 := e.value.1])
  }

  /** `as usize` */
  function AsUsize(p: Platform, n: nat): nat
    requires PlatformOk(p)
  {
    if n <= p.usizeMax then n else n % (p.usizeMax + 1)
  }

  datatype Header = Header(signer: bytes, identity: bytes, count: nat, at: nat)

  function HeaderAt(p: Platform, b: bytes): (r: Option<Header>)
    requires PlatformOk(p)
    ensures r.Some? ==> 24 <= r.value.at <= |b|
  {
    if |b| < 8 || b[..8] != MAGIC then None
    else
      var signer := PartAt(b, 8);
      if signer.None? || !p.accepts(signer.value.0) then None
      else
        var identity := PartAt(b, signer.value.1);
        if identity.None? then None
        else
          var at := identity.value.1;
          if at + 8 > |b| then None
          else Some(Header(signer.value.0, identity.value.0, AsUsize(p, FromBe64(b[at..at + 8])), at + 8))
  }

  /** What restore makes of the bytes, and the cursor where it stops. */
  function Parse(p: Platform, b: bytes): (r: Option<(DeviceState, nat)>)
    requires PlatformOk(p)
    ensures r.Some? ==> r.value.1 <= |b|
  {
    var h := HeaderAt(p, b);
    if h.None? then None else ParseBehind(b, h.value)
  }

  function ParseBehind(b: bytes, h: Header): (r: Option<(DeviceState, nat)>)
    requires h.at <= |b|
    ensures r.Some? ==> r.value.1 <= |b|
  {
    var e := EntriesAt(b, h.at, h.count, map[]);
    if e.None? then None else Some((DeviceState(h.signer, h.identity, e.value.0), e.value.1))
  }

  function Restored(p: Platform, b: bytes): Option<DeviceState>
    requires PlatformOk(p)
  {
    var r := Parse(p, b);
    if r.None? then None else Some(r.value.0)
  }

  // ----------------------------------------------------------------- the device

  class Device {
    var signer: bytes
    var identity: bytes
    var values: map<bytes, bytes>

    constructor (state: DeviceState)
      ensures State() == state
    {
      signer, identity, values := state.signer, state.identity, state.values;
    }

    function State(): DeviceState
      reads this
    {
      DeviceState(signer, identity, values)
    }

    /** The store is a hash map: the order of its entries is arbitrary. */
    method Snapshot() returns (out: bytes)
      ensures exists order :: Enumerates(order, values) && out == Encode(signer, identity, order)
    {
      out := WriteHead(signer, identity, |values|);
      ghost var head := out;
      assert values - values.Keys == map[];
      ghost var order: seq<(bytes, bytes)> := [];
      var rest := values.Keys;
      while rest != {}
        invariant rest <= values.Keys
        invariant |order| + |rest| == |values|
        invariant ToMap(order, map[]) == values - rest
        invariant out == head + Entries(order)
        decreases |rest|
      {
        ghost var some := Pick(rest);
        var k :| k in rest;
        out := WriteEntry(out, k, values[k]);
        EntriesSnoc(order, k, values[k]);
        ToMapSnoc(order, k, values[k], map[]);
        MapStep(values, rest, k);
        order := order + [(k, values[k])];
        rest := rest - {k};
      }
      assert values - {} == values;
      EncodeGrouping(signer, identity, order);
    }

    static method WriteHead(signer: bytes, identity: bytes, count: nat) returns (out: bytes)
      ensures out == MAGIC + Be32(|signer|) + signer + Be32(|identity|) + identity + Be64(count)
    {
      out := MAGIC;
      out := out + Be32(|signer|);
      out := out + signer;
      out := out + Be32(|identity|);
      out := out + identity;
      out := out + Be64(count);
    }

    static method WriteEntry(before: bytes, k: bytes, v: bytes) returns (out: bytes)
      ensures out == before + Entry(k, v)
    {
      out := before + Be32(|k|);
      out := out + Be32(|v|);
      out := out + k;
      out := out + v;
    }

    /** `take(n)`: advances the cursor, or fails and leaves it. */
    static method Take(b: bytes, at: nat, n: nat) returns (ok: bool, part: bytes, next: nat)
      requires at <= |b|
      ensures ok == TakeAt(b, at, n).Some?
      ensures ok ==> part == b[at..at + n] && next == at + n <= |b|
    {
      if at + n <= |b| {
        return true, b[at..at + n], at + n;
      }
      return false, [], at;
    }

    /** A length-prefixed part. */
    static method TakePart(b: bytes, at: nat) returns (r: Option<(bytes, nat)>)
      requires at <= |b|
      ensures r == PartAt(b, at)
    {
      var ok, len, next := Take(b, at, 4);
      if !ok { return None; }
      var part;
      ok, part, next := Take(b, next, FromBe32(len));
      if !ok { return None; }
      return Some((part, next));
    }

    static method TakeHeader(p: Platform, b: bytes) returns (r: Option<Header>)
      requires PlatformOk(p)
      ensures r == HeaderAt(p, b)
    {
      var ok, magic, at := Take(b, 0, 8);
      if !ok || magic != MAGIC { return None; }
      var signer := TakePart(b, at);
      if signer.None? || !p.accepts(signer.value.0) { return None; }
      var identity := TakePart(b, signer.value.1);
      if identity.None? { return None; }
      var count;
      ok, count, at := Take(b, identity.value.1, 8);
      if !ok { return None; }
      return Some(Header(signer.value.0, identity.value.0, AsUsize(p, FromBe64(count)), at));
    }

    static method TakeEntry(b: bytes, at: nat) returns (r: Option<(bytes, bytes, nat)>)
      requires at <= |b|
      ensures r == EntryAt(b, at)
    {
      var ok, kLen, next := Take(b, at, 4);
      if !ok { return None; }
      var vLen, k, v;
      ok, vLen, next := Take(b, next, 4);
      if !ok { return None; }
      ok, k, next := Take(b, next, FromBe32(kLen));
      if !ok { return None; }
      ok, v, next := Take(b, next, FromBe32(vLen));
      if !ok { return None; }
      return Some((k, v, next));
    }

    /** The counted loop of restore, with the number of rounds it ran. */
    static method TakeEntries(b: bytes, start: nat, count: nat)
      returns (r: Option<(map<bytes, bytes>, nat)>, rounds: nat)
      requires start <= |b|
      ensures r == EntriesAt(b, start, count, map[])
      ensures 8 * rounds <= |b| - start + 8
    {
      rounds := 0;
      var at := start;
      var values: map<bytes, bytes> := map[];
      ghost var wanted := EntriesAt(b, start, count, values);
      for i := 0 to count
        invariant start <= at <= |b| && 8 * i <= at - start
        invariant rounds == i
        invariant wanted == EntriesAt(b, at, count - i, values)
      {
        rounds := rounds + 1;
        var e := TakeEntry(b, at);
        if e.None? {
          EntriesStop(b, at, count - i, values);
          return None, rounds;
        }
        EntriesStep(b, at, count - i, values, e.value.0, e.value.1, e.value.2);
        values := values[e.value.0 := e.value.1];
        at := e.value.2;
      }
      return Some((values, at)), rounds;
    }

    /** Restore, with the number of rounds its loop ran. It never reads past the end, and the rounds
        are bounded by the input's length however large the untrusted count is. */
    static method Restore(p: Platform, b: bytes) returns (r: Option<DeviceState>, rounds: nat)
      requires PlatformOk(p)
      ensures r == Restored(p, b)
      ensures 8 * rounds <= |b|
    {
      var h := TakeHeader(p, b);
      if h.None? {
        return None, 0;
      }
      var entries;
      entries, rounds := TakeEntries(b, h.value.at, h.value.count);
      if entries.None? {
        return None, rounds;
      }
      return Some(DeviceState(h.value.signer, h.value.identity, entries.value.0)), rounds;
    }

    /** Replace the identity by a renewed certificate, if it names this device's key. */
    method SetIdentity(p: Platform, renewed: bytes) returns (ok: bool)
      modifies this
      ensures ok == CanCarry(p, old(State()), renewed)
      ensures State() == if ok then old(State()).(identity := renewed) else old(State())
    {
      var cert := Certificate.FromIdentity(p.certificate(renewed));
      if cert.None? || !Certificate.NamesKey(cert.value, p.publicKey(signer)) {
        return false;
      }
      identity := renewed;
      return true;
    }

    /** A copy that carries the renewed identity, made by snapshot and restore. */
    method WithIdentity(p: Platform, renewed: bytes) returns (device: Device?)
      requires PlatformOk(p)
      ensures State() == old(State())
      ensures device != null ==> fresh(device)
      ensures exists order ::
        && Enumerates(order, values)
        && (device == null <==> CopyOf(p, State(), order, renewed).None?)
        && (device != null ==> CopyOf(p, State(), order, renewed) == Some(device.State()))
      ensures PartsFit(State()) && |values| <= p.usizeMax && p.accepts(signer) ==>
        if CanCarry(p, State(), renewed) then device != null && device.State() == State().(identity := renewed)
        else device == null
    {
      var bytes := Snapshot();
      ghost var order :| Enumerates(order, values) && bytes == Encode(signer, identity, order);
      var state, _ := Restore(p, bytes);
      if PartsFit(State()) && |values| <= p.usizeMax && p.accepts(signer) {
        CopyExactly(p, State(), order, renewed);
      }
      if state.None? {
        return null;
      }
      device := new Device(state.value);
      var ok := device.SetIdentity(p, renewed);
      if !ok {
        device := null;
      }
    }
  }

  /** What a copy through a snapshot comes to, for any device: nothing when it cannot be restored, or when
      the identity does not fit what was restored. */
  function CopyOf(p: Platform, d: DeviceState, order: seq<(bytes, bytes)>, renewed: bytes): Option<DeviceState>
    requires PlatformOk(p)
  {
    var copy := Restored(p, Encode(d.signer, d.identity, order));
    if copy.Some? && CanCarry(p, copy.value, renewed) then Some(copy.value.(identity := renewed)) else None
  }

  /** For a device whose parts fit: the device with the renewed identity, if that names its key. */
  lemma CopyExactly(p: Platform, d: DeviceState, order: seq<(bytes, bytes)>, renewed: bytes)
    requires PlatformOk(p) && p.accepts(d.signer) && |d.values| <= p.usizeMax
    requires Enumerates(order, d.values) && PartsFit(d)
    ensures CopyOf(p, d, order, renewed) == if CanCarry(p, d, renewed) then Some(d.(identity := renewed)) else None
  {
    SnapshotRoundTrip(p, d, order);
  }

  /** The renewed identity is a certificate of an accepted shape that names the device's key. */
  predicate CanCarry(p: Platform, d: DeviceState, renewed: bytes) {
    var cert := Certificate.FromIdentity(p.certificate(renewed));
    cert.Some? && Certificate.NamesKey(cert.value, p.publicKey(d.signer))
  }

  // ------------------------------------------------------------------ small facts

  lemma {:induction false} EntriesSnoc(order: seq<(bytes, bytes)>, k: bytes, v: bytes)
    ensures Entries(order + [(k, v)]) == Entries(order) + Entry(k, v)
  {
    var longer := order + [(k, v)];
    if order == [] {
      assert longer == [(k, v)] && longer[1..] == [];
    } else {
      var first := Entry(order[0].0, order[0].1);
      EntriesSnoc(order[1..], k, v);
      assert longer[1..] == order[1..] + [(k, v)] && longer[0] == order[0];
      assert first + (Entries(order[1..]) + Entry(k, v)) == first + Entries(order[1..]) + Entry(k, v);
    }
  }

  lemma {:induction false} ToMapSnoc(order: seq<(bytes, bytes)>, k: bytes, v: bytes, acc: map<bytes, bytes>)
    ensures ToMap(order + [(k, v)], acc) == ToMap(order, acc)[k := v]
  {
    if order == [] {
      assert (order + [(k, v)])[1..] == [];
    } else {
      ToMapSnoc(order[1..], k, v, acc[order[0].0 := order[0].1]);
      assert (order + [(k, v)])[1..] == order[1..] + [(k, v)];
    }
  }

  lemma MapStep(values: map<bytes, bytes>, rest: set<bytes>, k: bytes)
    requires k in rest && rest <= values.Keys
    ensures (values - rest)[k := values[k]] == values - (rest - {k})
  {
  }

  lemma EncodeGrouping(signer: bytes, identity: bytes, order: seq<(bytes, bytes)>)
    ensures MAGIC + Be32(|signer|) + signer + Be32(|identity|) + identity
      + Be64(|order|) + Entries(order) == Encode(signer, identity, order)
  {
    Grouping(MAGIC, Be32(|signer|), signer, Be32(|identity|), identity,
             Be64(|order|) , Entries(order));
  }

  lemma Grouping(a: bytes, b: bytes, c: bytes, d: bytes, e: bytes, f: bytes, g: bytes)
    ensures a + b + c + d + e + f + g == a + (b + c + (d + e + (f + g)))
  {
    assert a + b + c + d + e + f + g == a + b + c + d + e + (f + g);
    assert a + b + c + d + e + (f + g) == a + b + c + (d + e + (f + g));
    assert a + b + c + (d + e + (f + g)) == a + (b + c + (d + e + (f + g)));
  }

  // ------------------------------------------------------------------- round trip

  /** Every length fits its u32 field. */
  predicate PartsFit(d: DeviceState) {
    && |d.signer| < U32 && |d.identity| < U32
    && forall k :: k in d.values ==> |k| < U32 && |d.values[k]| < U32
  }

  /** The bytes x stand at the cursor. */
  ghost predicate At(b: bytes, at: nat, x: bytes) {
    at + |x| <= |b| && forall i :: 0 <= i < |x| ==> b[at + i] == x[i]
  }

  lemma AtSlice(b: bytes, at: nat, x: bytes)
    requires At(b, at, x)
    ensures b[at..at + |x|] == x
  {
  }

  lemma AtSplit(b: bytes, at: nat, x: bytes, y: bytes)
    requires At(b, at, x + y)
    ensures At(b, at, x) && At(b, at + |x|, y)
  {
    var s := x + y;
    forall i: nat | i < |x| ensures b[at + i] == x[i] {
      assert s[i] == x[i];
    }
    forall i: nat | i < |y| ensures b[at + |x| + i] == y[i] {
      assert s[|x| + i] == y[i];
    }
  }

  lemma PartRoundTrip(b: bytes, at: nat, part: bytes)
    requires At(b, at, Field(part)) && |part| < U32
    ensures PartAt(b, at) == Some((part, at + |Field(part)|))
  {
    AtSplit(b, at, Be32(|part|), part);
    AtSlice(b, at, Be32(|part|));
    AtSlice(b, at + 4, part);
  }

  lemma EntryRoundTrip(b: bytes, at: nat, k: bytes, v: bytes)
    requires At(b, at, Entry(k, v)) && |k| < U32 && |v| < U32
    ensures EntryAt(b, at) == Some((k, v, at + 8 + |k| + |v|)) && |Entry(k, v)| == 8 + |k| + |v|
  {
    var kLen, vLen := Be32(|k|), Be32(|v|);
    AtSplit(b, at, kLen + vLen + k, v);
    AtSplit(b, at, kLen + vLen, k);
    AtSplit(b, at, kLen, vLen);
    EntryFromFields(b, at, kLen, vLen, k, v);
  }

  lemma EntryFromFields(b: bytes, at: nat, kLen: bytes, vLen: bytes, k: bytes, v: bytes)
    requires |kLen| == |vLen| == 4 && FromBe32(kLen) == |k| && FromBe32(vLen) == |v|
    requires At(b, at, kLen) && At(b, at + 4, vLen) && At(b, at + 8, k) && At(b, at + 8 + |k|, v)
    ensures EntryAt(b, at) == Some((k, v, at + 8 + |k| + |v|))
  {
    AtSlice(b, at, kLen);
    AtSlice(b, at + 4, vLen);
    AtSlice(b, at + 8, k);
    AtSlice(b, at + 8 + |k|, v);
  }

  ghost predicate EntriesFit(order: seq<(bytes, bytes)>) {
    forall i :: 0 <= i < |order| ==> |order[i].0| < U32 && |order[i].1| < U32
  }

  lemma EntriesStep(b: bytes, at: nat, count: nat, acc: map<bytes, bytes>, k: bytes, v: bytes, next: nat)
    requires at <= |b| && count > 0 && EntryAt(b, at) == Some((k, v, next))
    ensures EntriesAt(b, at, count, acc) == EntriesAt(b, next, count - 1, acc[k := v])
  {
  }

  lemma EntriesStop(b: bytes, at: nat, count: nat, acc: map<bytes, bytes>)
    requires at <= |b| && count > 0 && EntryAt(b, at).None?
    ensures EntriesAt(b, at, count, acc).None?
  {
  }

  lemma {:induction false} EntriesRoundTrip(b: bytes, at: nat, order: seq<(bytes, bytes)>, acc: map<bytes, bytes>)
    requires At(b, at, Entries(order)) && EntriesFit(order)
    ensures EntriesAt(b, at, |order|, acc) == Some((ToMap(order, acc), at + |Entries(order)|))
    decreases |order|
  {
    if order != [] {
      var (k, v) := order[0];
      var next, size := at + 8 + |k| + |v|, |Entries(order)|;
      AtSplit(b, at, Entry(k, v), Entries(order[1..]));
      EntryRoundTrip(b, at, k, v);
      assert next + |Entries(order[1..])| == at + size;
      EntriesStep(b, at, |order|, acc, k, v, next);
      EntriesRoundTrip(b, next, order[1..], acc[k := v]);
    }
  }

  lemma CountField(count: nat)
    requires count < U32 * U32
    ensures FromBe64(Be64(count)) == count
  {
    var hi: u32, lo: u32 := count / U32, count % U32;
    Be32RoundTripOf(hi);
    Be32RoundTripOf(lo);
    assert Be64(count)[..4] == Be32(hi) && Be64(count)[4..] == Be32(lo);
  }

  lemma HeaderFromParts(p: Platform, b: bytes, signer: bytes, at1: nat, identity: bytes, at2: nat, len: bytes)
    requires PlatformOk(p) && p.accepts(signer) && |len| == 8
    requires At(b, 0, MAGIC) && at1 <= |b| && At(b, at2, len)
    requires PartAt(b, 8) == Some((signer, at1)) && PartAt(b, at1) == Some((identity, at2))
    ensures HeaderAt(p, b) == Some(Header(signer, identity, AsUsize(p, FromBe64(len)), at2 + 8))
  {
    AtSlice(b, 0, MAGIC);
    AtSlice(b, at2, len);
    assert b[..8] == b[0..8];
  }

  lemma HeaderPieces(p: Platform, b: bytes, signer: bytes, identity: bytes, at1: nat, at2: nat, len: bytes)
    requires PlatformOk(p) && p.accepts(signer) && |signer| < U32 && |identity| < U32
    requires |len| == 8
    requires At(b, 0, MAGIC) && At(b, 8, Field(signer)) && at1 == 8 + |Field(signer)|
    requires At(b, at1, Field(identity)) && at2 == at1 + |Field(identity)| && At(b, at2, len)
    ensures HeaderAt(p, b) == Some(Header(signer, identity, AsUsize(p, FromBe64(len)), at2 + 8))
  {
    PartRoundTrip(b, 8, signer);
    PartRoundTrip(b, at1, identity);
    HeaderFromParts(p, b, signer, at1, identity, at2, len);
  }

  lemma BehindPieces(b: bytes, h: Header, order: seq<(bytes, bytes)>, end: nat)
    requires h.at <= |b| && h.count == |order| && end == h.at + |Entries(order)|
    requires At(b, h.at, Entries(order)) && EntriesFit(order)
    ensures ParseBehind(b, h) == Some((DeviceState(h.signer, h.identity, ToMap(order, map[])), end))
  {
    EntriesRoundTrip(b, h.at, order, map[]);
  }

  /** Where the pieces of a snapshot stand. */
  lemma Pieces(b: bytes, a: bytes, f: bytes, g: bytes, c: bytes, e: bytes, at1: nat, at2: nat, at3: nat)
    requires At(b, 0, a + (f + (g + (c + e)))) && |a| == |c| == 8
    requires at1 == 8 + |f| && at2 == at1 + |g| && at3 == at2 + 8
    ensures At(b, 0, a) && At(b, 8, f) && At(b, at1, g) && At(b, at2, c) && At(b, at3, e)
    ensures |a + (f + (g + (c + e)))| == at3 + |e|
  {
    AtSplit(b, 0, a, f + (g + (c + e)));
    AtSplit(b, 8, f, g + (c + e));
    AtSplit(b, at1, g, c + e);
    AtSplit(b, at2, c, e);
  }

  lemma AtFront(x: bytes, tail: bytes)
    ensures At(x + tail, 0, x)
  {
  }

  /** Whatever bytes follow a snapshot, restore stops where the snapshot ends. */
  lemma ParseEncoded(p: Platform, signer: bytes, identity: bytes, order: seq<(bytes, bytes)>, tail: bytes)
    requires PlatformOk(p) && p.accepts(signer)
    requires |signer| < U32 && |identity| < U32 && EntriesFit(order) && |order| <= p.usizeMax
    ensures Parse(p, Encode(signer, identity, order) + tail)
      == Some((DeviceState(signer, identity, ToMap(order, map[])), |Encode(signer, identity, order)|))
  {
    AtFront(Encode(signer, identity, order), tail);
    ParseAt(p, Encode(signer, identity, order) + tail, signer, identity, |order|, order);
  }

  lemma ParseAt(p: Platform, b: bytes, signer: bytes, identity: bytes, count: nat, order: seq<(bytes, bytes)>)
    requires PlatformOk(p) && p.accepts(signer) && At(b, 0, EncodeCount(signer, identity, count, order))
    requires |signer| < U32 && |identity| < U32 && EntriesFit(order)
    requires count < U32 * U32 && AsUsize(p, count) == |order|
    ensures Parse(p, b)
      == Some((DeviceState(signer, identity, ToMap(order, map[])), |EncodeCount(signer, identity, count, order)|))
  {
    var at := HeaderEncoded(p, b, signer, identity, count, order);
    BehindPieces(b, Header(signer, identity, |order|, at), order, |EncodeCount(signer, identity, count, order)|);
  }

  lemma HeaderEncoded(p: Platform, b: bytes, signer: bytes, identity: bytes, count: nat, order: seq<(bytes, bytes)>)
    returns (at: nat)
    requires PlatformOk(p) && p.accepts(signer) && At(b, 0, EncodeCount(signer, identity, count, order))
    requires |signer| < U32 && |identity| < U32 && count < U32 * U32
    ensures HeaderAt(p, b) == Some(Header(signer, identity, AsUsize(p, count), at))
    ensures At(b, at, Entries(order)) && at + |Entries(order)| == |EncodeCount(signer, identity, count, order)|
  {
    var at1 := 8 + |Field(signer)|;
    var at2 := at1 + |Field(identity)|;
    at := at2 + 8;
    Pieces(b, MAGIC, Field(signer), Field(identity), Be64(count), Entries(order), at1, at2, at);
    CountField(count);
    HeaderPieces(p, b, signer, identity, at1, at2, Be64(count));
  }

  /** Round trip: for every order in which the store may have been iterated. */
  lemma SnapshotRoundTrip(p: Platform, d: DeviceState, order: seq<(bytes, bytes)>)
    requires PlatformOk(p) && p.accepts(d.signer) && |d.values| <= p.usizeMax
    requires Enumerates(order, d.values) && PartsFit(d)
    ensures Restored(p, Encode(d.signer, d.identity, order)) == Some(d)
  {
    EnumerationFits(d, order);
    var b := Encode(d.signer, d.identity, order);
    ParseEncoded(p, d.signer, d.identity, order, []);
    assert b + [] == b;
  }

  lemma {:induction false} ToMapEntries(order: seq<(bytes, bytes)>, acc: map<bytes, bytes>)
    ensures |ToMap(order, acc)| <= |acc| + |order|
    ensures |ToMap(order, acc)| == |acc| + |order| ==>
      forall i :: 0 <= i < |order| ==> order[i].0 in ToMap(order, acc) && ToMap(order, acc)[order[i].0] == order[i].1
    ensures forall k :: k in acc ==> k in ToMap(order, acc)
    ensures |ToMap(order, acc)| == |acc| + |order| ==> forall k :: k in acc ==> ToMap(order, acc)[k] == acc[k]
    decreases |order|
  {
    if order != [] {
      var (k, v) := order[0];
      var next := acc[k := v];
      assert next.Keys == acc.Keys + {k};
      assert |next| == if k in acc then |acc| else |acc| + 1;
      ToMapEntries(order[1..], next);
    }
  }

  lemma EnumerationFits(d: DeviceState, order: seq<(bytes, bytes)>)
    requires Enumerates(order, d.values) && PartsFit(d)
    ensures EntriesFit(order)
  {
    ToMapEntries(order, map[]);
  }

  // ------------------------------------- what restore can return, on arbitrary bytes

  lemma {:induction false} EntriesAtFit(b: bytes, at: nat, count: nat, acc: map<bytes, bytes>)
    requires at <= |b|
    requires forall k :: k in acc ==> |k| < U32 && |acc[k]| < U32
    ensures var r := EntriesAt(b, at, count, acc);
      r.Some? ==> forall k :: k in r.value.0 ==> |k| < U32 && |r.value.0[k]| < U32
    decreases count
  {
    if count > 0 {
      var e := EntryAt(b, at);
      if e.Some? {
        EntriesAtFit(b, e.value.2, count - 1, acc[e.value.0 := e.value.1]);
      }
    }
  }

  lemma PartAtFits(b: bytes, at: nat)
    requires at <= |b|
    ensures PartAt(b, at).Some? ==> |PartAt(b, at).value.0| < U32
  {
  }

  lemma RestoredFits(p: Platform, b: bytes)
    requires PlatformOk(p) && Restored(p, b).Some?
    ensures PartsFit(Restored(p, b).value) && p.accepts(Restored(p, b).value.signer)
  {
    var h := HeaderAt(p, b).value;
    PartAtFits(b, 8);
    PartAtFits(b, PartAt(b, 8).value.1);
    EntriesAtFit(b, h.at, h.count, map[]);
  }

  /** The round trip holds exactly for the devices whose parts fit their length fields. */
  lemma RoundTripExactly(p: Platform, d: DeviceState, order: seq<(bytes, bytes)>)
    requires PlatformOk(p) && p.accepts(d.signer) && |d.values| <= p.usizeMax
    requires Enumerates(order, d.values)
    ensures Restored(p, Encode(d.signer, d.identity, order)) == Some(d) <==> PartsFit(d)
  {
    var b := Encode(d.signer, d.identity, order);
    if PartsFit(d) {
      SnapshotRoundTrip(p, d, order);
    } else if Restored(p, b).Some? {
      RestoredFits(p, b);
    }
  }

  // --------------------------------------------------------- truncation, extension

  lemma {:induction false} EntriesExtend(b: bytes, tail: bytes, at: nat, count: nat, acc: map<bytes, bytes>)
    requires at <= |b| && EntriesAt(b, at, count, acc).Some?
    ensures EntriesAt(b + tail, at, count, acc) == EntriesAt(b, at, count, acc)
    decreases count
  {
    if count > 0 {
      var e := EntryAt(b, at).value;
      var k, v := FromBe32(b[at..at + 4]), FromBe32(b[at + 4..at + 8]);
      SliceExtend(b, tail, at, at + 4);
      SliceExtend(b, tail, at + 4, at + 8);
      SliceExtend(b, tail, at + 8, at + 8 + k);
      SliceExtend(b, tail, at + 8 + k, at + 8 + k + v);
      assert EntryAt(b + tail, at) == EntryAt(b, at);
      EntriesExtend(b, tail, e.2, count - 1, acc[e.0 := e.1]);
    }
  }

  lemma SliceExtend(b: bytes, tail: bytes, i: nat, j: nat)
    requires i <= j <= |b|
    ensures (b + tail)[i..j] == b[i..j]
  {
  }

  lemma PartExtend(b: bytes, tail: bytes, at: nat)
    requires at <= |b| && PartAt(b, at).Some?
    ensures PartAt(b + tail, at) == PartAt(b, at)
  {
    SliceExtend(b, tail, at, at + 4);
    SliceExtend(b, tail, at + 4, PartAt(b, at).value.1);
  }

  lemma HeaderExtend(p: Platform, b: bytes, tail: bytes)
    requires PlatformOk(p) && HeaderAt(p, b).Some?
    ensures HeaderAt(p, b + tail) == HeaderAt(p, b)
  {
    SliceExtend(b, tail, 0, 8);
    assert b[..8] == b[0..8] && (b + tail)[..8] == (b + tail)[0..8];
    PartExtend(b, tail, 8);
    var at1 := PartAt(b, 8).value.1;
    PartExtend(b, tail, at1);
    var at2 := PartAt(b, at1).value.1;
    SliceExtend(b, tail, at2, at2 + 8);
  }

  /** Appending bytes to anything restorable changes nothing. */
  lemma ParseExtend(p: Platform, b: bytes, tail: bytes)
    requires PlatformOk(p) && Parse(p, b).Some?
    ensures Parse(p, b + tail) == Parse(p, b)
  {
    HeaderExtend(p, b, tail);
    var h := HeaderAt(p, b).value;
    EntriesExtend(b, tail, h.at, h.count, map[]);
  }

  /** Bytes appended to a snapshot do not change what is restored. */
  lemma ExtensionIgnored(p: Platform, d: DeviceState, order: seq<(bytes, bytes)>, tail: bytes)
    requires PlatformOk(p) && p.accepts(d.signer) && |d.values| <= p.usizeMax
    requires Enumerates(order, d.values) && PartsFit(d)
    ensures Restored(p, Encode(d.signer, d.identity, order) + tail) == Some(d)
  {
    SnapshotRoundTrip(p, d, order);
    ParseExtend(p, Encode(d.signer, d.identity, order), tail);
  }

  /** Bytes that restore reads to the end cannot be cut short. */
  lemma CutShort(p: Platform, b: bytes, n: nat)
    requires PlatformOk(p) && Parse(p, b).Some? && Parse(p, b).value.1 == |b| && n < |b|
    ensures Parse(p, b[..n]) == None
  {
    var front, tail := b[..n], b[n..];
    assert front + tail == b;
    if Parse(p, front).Some? {
      ParseExtend(p, front, tail);
    }
  }

  /** A snapshot cut short anywhere is rejected. */
  lemma PrefixRejected(p: Platform, d: DeviceState, order: seq<(bytes, bytes)>, n: nat)
    requires PlatformOk(p) && p.accepts(d.signer) && |d.values| <= p.usizeMax
    requires Enumerates(order, d.values) && PartsFit(d)
    requires n < |Encode(d.signer, d.identity, order)|
    ensures Restored(p, Encode(d.signer, d.identity, order)[..n]) == None
  {
    var b := Encode(d.signer, d.identity, order);
    EnumerationFits(d, order);
    ParseEncoded(p, d.signer, d.identity, order, []);
    assert b + [] == b;
    CutShort(p, b, n);
  }

  // ------------------------------------------------ exactly which bytes restore, and to what

  /** The fixed-width numbers are big-endian: the first byte counts most. */
  lemma BigEndian(x: bytes, y: bytes)
    requires |x| == 4 && |y| == 8
    ensures FromBe32(x) == 16777216 * x[0] as int + 65536 * x[1] as int + 256 * x[2] as int + x[3] as int
    ensures FromBe64(y) == FromBe32(y[..4]) * 4294967296 + FromBe32(y[4..])
  {
  }

  /** `as usize` keeps the low 32 bits in the web build, and the whole count elsewhere. */
  lemma UsizeKeepsLowBits(p: Platform, n: nat)
    requires PlatformOk(p) && n < 18446744073709551616
    ensures p.usizeMax == 4294967295 ==> AsUsize(p, n) == n % 4294967296
    ensures p.usizeMax != 4294967295 ==> AsUsize(p, n) == n
  {
  }

  lemma Be32OfBytes(x: bytes)
    requires |x| == 4
    ensures Be32(FromBe32(x)) == x
  {
    var n: int := FromBe32(x);
    var b0: int, b1: int, b2: int, b3: int := x[0], x[1], x[2], x[3];
    assert n / 256 == (b0 * 256 + b1) * 256 + b2 && n % 256 == b3;
    assert n / 256 / 256 == b0 * 256 + b1 && n / 256 % 256 == b2;
    assert n / 256 / 256 / 256 == b0 && n / 256 / 256 % 256 == b1;
  }

  lemma Be64OfBytes(x: bytes)
    requires |x| == 8
    ensures FromBe64(x) < U32 * U32 && Be64(FromBe64(x)) == x
  {
    Be32OfBytes(x[..4]);
    Be32OfBytes(x[4..]);
    var hi: int, lo: int := FromBe32(x[..4]), FromBe32(x[4..]);
    assert (hi * U32 + lo) / U32 == hi && (hi * U32 + lo) % U32 == lo;
    assert x[..4] + x[4..] == x;
  }

  lemma AtJoin(b: bytes, at: nat, x: bytes, y: bytes)
    requires At(b, at, x) && At(b, at + |x|, y)
    ensures At(b, at, x + y)
  {
    forall i | 0 <= i < |x + y| ensures b[at + i] == (x + y)[i] {
      if i >= |x| {
        assert b[at + |x| + (i - |x|)] == y[i - |x|];
      }
    }
  }

  lemma SliceAt(b: bytes, i: nat, j: nat)
    requires i <= j <= |b|
    ensures At(b, i, b[i..j])
  {
  }

  /** A part that was read stands there in its written form. */
  lemma ReadPart(b: bytes, at: nat, part: bytes, next: nat)
    requires at <= |b| && PartAt(b, at) == Some((part, next))
    ensures At(b, at, Field(part)) && next == at + |Field(part)| && |part| < U32
  {
    SliceAt(b, at, at + 4);
    SliceAt(b, at + 4, next);
    Be32OfBytes(b[at..at + 4]);
    AtJoin(b, at, b[at..at + 4], part);
  }

  lemma ReadEntry(b: bytes, at: nat, k: bytes, v: bytes, next: nat)
    requires at <= |b| && EntryAt(b, at) == Some((k, v, next))
    ensures At(b, at, Entry(k, v)) && next == at + |Entry(k, v)| && |k| < U32 && |v| < U32
  {
    var kLen, vLen := b[at..at + 4], b[at + 4..at + 8];
    SliceAt(b, at, at + 4);
    SliceAt(b, at + 4, at + 8);
    SliceAt(b, at + 8, at + 8 + |k|);
    SliceAt(b, at + 8 + |k|, next);
    Be32OfBytes(kLen);
    Be32OfBytes(vLen);
    AtJoin(b, at, kLen, vLen);
    AtJoin(b, at, kLen + vLen, k);
    AtJoin(b, at, kLen + vLen + k, v);
  }

  lemma {:induction false} ReadEntries(b: bytes, at: nat, count: nat, acc: map<bytes, bytes>)
    returns (order: seq<(bytes, bytes)>)
    requires at <= |b| && EntriesAt(b, at, count, acc).Some?
    ensures |order| == count && EntriesFit(order) && At(b, at, Entries(order))
    ensures EntriesAt(b, at, count, acc).value.0 == ToMap(order, acc)
    decreases count
  {
    order := [];
    if count > 0 {
      var (k, v, next) := EntryAt(b, at).value;
      ReadEntry(b, at, k, v, next);
      var rest := ReadEntries(b, next, count - 1, acc[k := v]);
      order := [(k, v)] + rest;
      assert order[1..] == rest;
      AtJoin(b, at, Entry(k, v), Entries(rest));
    }
  }

  lemma ReadHeader(p: Platform, b: bytes) returns (count: nat, at1: nat, at2: nat)
    requires PlatformOk(p) && HeaderAt(p, b).Some?
    ensures var h := HeaderAt(p, b).value;
      && p.accepts(h.signer) && |h.signer| < U32 && |h.identity| < U32
      && count < U32 * U32 && AsUsize(p, count) == h.count
      && At(b, 0, MAGIC) && At(b, 8, Field(h.signer)) && at1 == 8 + |Field(h.signer)|
      && At(b, at1, Field(h.identity)) && at2 == at1 + |Field(h.identity)|
      && At(b, at2, Be64(count)) && h.at == at2 + 8
  {
    var h := HeaderAt(p, b).value;
    SliceAt(b, 0, 8);
    assert b[..8] == b[0..8];
    at1 := PartAt(b, 8).value.1;
    ReadPart(b, 8, h.signer, at1);
    at2 := PartAt(b, at1).value.1;
    ReadPart(b, at1, h.identity, at2);
    SliceAt(b, at2, at2 + 8);
    count := FromBe64(b[at2..at2 + 8]);
    Be64OfBytes(b[at2..at2 + 8]);
  }

  /** The bytes begin with the written form of this device, for this order of entries and this count field,
      of which `usize` keeps the number of entries. */
  ghost predicate Represents(p: Platform, b: bytes, d: DeviceState, count: nat, order: seq<(bytes, bytes)>)
    requires PlatformOk(p)
  {
    && p.accepts(d.signer) && |d.signer| < U32 && |d.identity| < U32 && EntriesFit(order)
    && count < U32 * U32 && AsUsize(p, count) == |order|
    && At(b, 0, EncodeCount(d.signer, d.identity, count, order))
    && d.values == ToMap(order, map[])
  }

  lemma JoinPieces(b: bytes, a: bytes, f: bytes, g: bytes, c: bytes, e: bytes, at1: nat, at2: nat, at3: nat)
    requires |a| == |c| == 8 && at1 == 8 + |f| && at2 == at1 + |g| && at3 == at2 + 8
    requires At(b, 0, a) && At(b, 8, f) && At(b, at1, g) && At(b, at2, c) && At(b, at3, e)
    ensures At(b, 0, a + (f + (g + (c + e))))
  {
    AtJoin(b, at2, c, e);
    AtJoin(b, at1, g, c + e);
    AtJoin(b, 8, f, g + (c + e));
    AtJoin(b, 0, a, f + (g + (c + e)));
  }

  lemma ReadAll(p: Platform, b: bytes) returns (count: nat, order: seq<(bytes, bytes)>)
    requires PlatformOk(p) && Restored(p, b).Some?
    ensures Represents(p, b, Restored(p, b).value, count, order)
  {
    var h := HeaderAt(p, b).value;
    var at1, at2;
    count, at1, at2 := ReadHeader(p, b);
    order := ReadEntries(b, h.at, h.count, map[]);
    JoinPieces(b, MAGIC, Field(h.signer), Field(h.identity), Be64(count), Entries(order), at1, at2, h.at);
  }

  /** On arbitrary bytes: they restore to a device exactly when they begin with a written form of it. */
  lemma RestoredExactly(p: Platform, b: bytes, d: DeviceState)
    requires PlatformOk(p)
    ensures Restored(p, b) == Some(d) <==> exists count, order :: Represents(p, b, d, count, order)
  {
    if Restored(p, b) == Some(d) {
      var count, order := ReadAll(p, b);
    }
    if exists count, order :: Represents(p, b, d, count, order) {
      var count, order :| Represents(p, b, d, count, order);
      ParseAt(p, b, d.signer, d.identity, count, order);
    }
  }

  /** Among the entries with one key, the last one counts. */
  lemma {:induction false} LastEntryCounts(order: seq<(bytes, bytes)>, k: bytes, v: bytes)
    ensures k in ToMap(order, map[]) && ToMap(order, map[])[k] == v <==>
      exists i :: 0 <= i < |order| && order[i] == (k, v) && forall j :: i < j < |order| ==> order[j].0 != k
  {
    if order != [] {
      var n := |order| - 1;
      var front, last := order[..n], order[n];
      LastEntryCounts(front, k, v);
      ToMapSnoc(front, last.0, last.1, map[]);
      assert order == front + [last];
      if k == last.0 {
        if v == last.1 {
          assert order[n] == (k, v);
        }
      } else if k in ToMap(front, map[]) && ToMap(front, map[])[k] == v {
        var i :| 0 <= i < |front| && front[i] == (k, v) && forall j :: i < j < |front| ==> front[j].0 != k;
        assert order[i] == (k, v);
      }
      if exists i :: 0 <= i < |order| && order[i] == (k, v) && forall j :: i < j < |order| ==> order[j].0 != k {
        var i :| 0 <= i < |order| && order[i] == (k, v) && forall j :: i < j < |order| ==> order[j].0 != k;
        if i < n {
          assert front[i] == (k, v) && forall j :: i < j < |front| ==> front[j].0 != k;
        }
      }
    }
  }

  /** Where the pieces of an entry and of a snapshot stand, byte by byte. */
  lemma EntryLayout(k: bytes, v: bytes)
    requires |k| < U32 && |v| < U32
    ensures var e := Entry(k, v);
      && |e| == 8 + |k| + |v|
      && FromBe32(e[..4]) == |k| && FromBe32(e[4..8]) == |v| && e[8..8 + |k|] == k && e[8 + |k|..] == v
  {
    var e := Entry(k, v);
    assert e[..4] == Be32(|k|) && e[4..8] == Be32(|v|);
  }

  lemma MagicText()
    ensures |MAGIC| == 8 && forall i :: 0 <= i < 8 ==> MAGIC[i] == "MYSOMLS1"[i] as int
  {
  }

  lemma HeaderLayout(signer: bytes, identity: bytes, order: seq<(bytes, bytes)>)
    requires |signer| < U32 && |identity| < U32 && |order| < U32 * U32
    ensures exists sl, il, c ::
      && |sl| == |il| == 4 && |c| == 8
      && FromBe32(sl) == |signer| && FromBe32(il) == |identity| && FromBe64(c) == |order|
      && StandsAs(Encode(signer, identity, order), sl, signer, il, identity, c, Entries(order))
  {
    var sl, il, c := Be32(|signer|), Be32(|identity|), Be64(|order|);
    CountField(|order|);
    Be32RoundTripOf(|signer|);
    Be32RoundTripOf(|identity|);
    LayoutOf(Encode(signer, identity, order), MAGIC, sl, signer, il, identity, c, Entries(order));
    assert StandsAs(Encode(signer, identity, order), sl, signer, il, identity, c, Entries(order));
  }

  lemma Be32RoundTripOf(n: u32)
    ensures FromBe32(Be32(n)) == n
  {
  }

  /** The pieces stand one behind the other: the magic text, the signer and the identity, each behind its length,
      the count, and the entries. */
  ghost predicate StandsAs(b: bytes, sl: bytes, s: bytes, il: bytes, i: bytes, c: bytes, e: bytes)
    requires |sl| == |il| == 4 && |c| == 8
  {
    var at := 12 + |s|;
    && |b| == at + 12 + |i| + |e| && b[..8] == MAGIC && b[8..12] == sl && b[12..at] == s
    && b[at..at + 4] == il && b[at + 4..at + 4 + |i|] == i
    && b[at + 4 + |i|..at + 12 + |i|] == c && b[at + 12 + |i|..] == e
  }

  lemma LayoutOf(b: bytes, m: bytes, sl: bytes, s: bytes, il: bytes, i: bytes, c: bytes, e: bytes)
    requires b == m + ((sl + s) + ((il + i) + (c + e))) && |m| == |c| == 8 && |sl| == |il| == 4
    ensures var at := 12 + |s|;
      && |b| == at + 12 + |i| + |e| && b[..8] == m && b[8..12] == sl && b[12..at] == s
      && b[at..at + 4] == il && b[at + 4..at + 4 + |i|] == i
      && b[at + 4 + |i|..at + 12 + |i|] == c && b[at + 12 + |i|..] == e
  {
  }

  /** Exactly which certificates a device takes as its identity: of an accepted version and not blank, with the
      device's own public key as the MLS key, in hex of either letter case, with or without 0x. */
  lemma CanCarryExactly(p: Platform, d: DeviceState, renewed: bytes)
    ensures CanCarry(p, d, renewed) <==>
      && p.certificate(renewed).Some?
      && var c := p.certificate(renewed).value;
      && ((c.v == 1 && c.authorityKey == None) || (c.v == 2 && c.authorityKey != None))
      && c.wallet != "" && c.deviceId != ""
      && Text.Lower(Text.Strip0x(c.mlsKey)) == Hex.Encode(p.publicKey(d.signer))
  {
    if p.certificate(renewed).Some? {
      Certificate.DecodeExactly(Text.Strip0x(p.certificate(renewed).value.mlsKey), p.publicKey(d.signer));
    }
  }
}
