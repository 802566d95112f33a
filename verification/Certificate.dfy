/** Device certificates: canonical signed strings, issuing, and verification. */
module Certificate {
  import opened Base
  import opened Text
  import Hex

  datatype DeviceCertificate = DeviceCertificate(
    v: byte,
    wallet: string,
    deviceId: string,
    mlsKey: string,
    issuedAtMs: i64,
    sig: string,
    signerKey: string,
    authorityKey: Option<string>)

  const VERSION_1: byte := 1
  const VERSION_2: byte := 2
  const AUTHORITY_SIGNER := "authority"

  /** An authority key pair: its public key, and its signing operation, which may fail. */
  datatype Authority = Authority(publicKey: seq<byte>, sign: string -> Option<seq<byte>>)

  /** ed25519 verification: public key, message, signature. */
  type Verifier = (seq<byte>, string, seq<byte>) -> bool

  function NormHex(h: string): string {
    Lower(Strip0x(Trim(h)))
  }

  function Canonical(wallet: string, deviceId: string, mlsKeyHex: string, issuedAtMs: i64): string {
    "myso-mls-device-v1:" + Lower(Trim(wallet)) + ":" + Trim(deviceId) + ":" + NormHex(mlsKeyHex)
    + ":" + Decimal(issuedAtMs)
  }

  function CanonicalV2(wallet: string, deviceId: string, mlsKeyHex: string, issuedAtMs: i64,
                       authorityKeyHex: string): string {
    "myso-mls-device-v2:" + Lower(Trim(wallet)) + ":" + Trim(deviceId) + ":" + NormHex(mlsKeyHex)
    + ":" + Decimal(issuedAtMs) + ":" + NormHex(authorityKeyHex)
  }

  function SignedCanonical(c: DeviceCertificate): string {
    if c.v == VERSION_2 && c.authorityKey.Some?
    then CanonicalV2(c.wallet, c.deviceId, c.mlsKey, c.issuedAtMs, c.authorityKey.value)
    else Canonical(c.wallet, c.deviceId, c.mlsKey, c.issuedAtMs)
  }

  /** None when signing fails. */
  function IssueV2(authority: Authority, wallet: string, deviceId: string, mlsKeyHex: string,
                   issuedAtMs: i64): Option<DeviceCertificate> {
    var authorityKey := Hex.Encode(authority.publicKey);
    var sig := authority.sign(CanonicalV2(wallet, deviceId, mlsKeyHex, issuedAtMs, authorityKey));
    if sig.None? then None
    else Some(DeviceCertificate(VERSION_2, Lower(Trim(wallet)), Trim(deviceId), NormHex(mlsKeyHex), issuedAtMs,
                                Hex.Encode(sig.value), AUTHORITY_SIGNER, Some(authorityKey)))
  }

  predicate VerifyAuthoritySignature(verify: Verifier, c: DeviceCertificate) {
    && c.v == VERSION_2 && c.authorityKey.Some?
    && c.signerKey == AUTHORITY_SIGNER
    && var key, sig := Hex.Decode(NormHex(c.authorityKey.value)), Hex.Decode(NormHex(c.sig));
    && key.Some? && sig.Some?
    && |key.value| == 32 && |sig.value| == 64
    && verify(key.value, SignedCanonical(c), sig.value)
  }

  /** Reading an identity back; `json` is the deserialised certificate, if the bytes are one. */
  function FromIdentity(json: Option<DeviceCertificate>): Option<DeviceCertificate> {
    if json.None? then None
    else
      var c := json.value;
      var shapeOk := if c.v == VERSION_1 then c.authorityKey.None?
                     else c.v == VERSION_2 && c.authorityKey.Some?;
      if shapeOk && c.wallet != "" && c.deviceId != "" then Some(c) else None
  }

  predicate NamesKey(c: DeviceCertificate, signatureKey: seq<byte>) {
    Hex.Decode(Strip0x(c.mlsKey)) == Some(signatureKey)
  }

  // ------------------------------------------------------------ normalisation

  /** Once trimmed and stripped, the text begins neither with white space nor with "0X". */
  predicate CleanHex(h: string) {
    var rest := Strip0x(Trim(h));
    !(rest != "" && IsSpace(rest[0])) && !("0X" <= rest)
  }

  /** Normalising twice is normalising once, exactly on clean inputs. */
  lemma NormHexIdempotent(h: string)
    ensures NormHex(NormHex(h)) == NormHex(h) <==> CleanHex(h)
  {
    var rest := Strip0x(Trim(h));
    TrimGivesTrimmed(h);
    Strip0xFacts(Trim(h));
    assert rest != "" ==> rest[|rest| - 1] == Trim(h)[|Trim(h)| - 1];
    NormOfLower(rest);
  }

  /** A "0X" is kept the first time, as "0x", and stripped the second time. */
  lemma UncleanKeyWitness(digits: string)
    requires Hex.LowerHex(digits)
    ensures NormHex("0X" + digits) == "0x" + digits && NormHex("0x" + digits) == digits
  {
    PrefixTrimmed('X', digits);
    PrefixTrimmed('x', digits);
    LowerHexFixed(digits);
    StripOnce(digits);
    assert Lower("0X" + digits) == "0x" + digits && Lower(digits) == digits;
  }

  lemma PrefixTrimmed(x: char, digits: string)
    requires Hex.LowerHex(digits) && !IsSpace(x)
    ensures Trim(['0', x] + digits) == ['0', x] + digits
  {
    TrimFixed(['0', x] + digits);
  }

  lemma StripOnce(s: string)
    ensures Strip0x("0x" + s) == Strip0x(s)
  {
    assert ("0x" + s)[2..] == s;
  }

  lemma NormOfLower(rest: string)
    requires rest != "" ==> !IsSpace(rest[|rest| - 1])
    requires !("0x" <= rest)
    ensures NormHex(Lower(rest)) == Lower(rest) <==> !(rest != "" && IsSpace(rest[0])) && !("0X" <= rest)
  {
    var low := Lower(rest);
    LowerFacts(rest);
    TrimFixed(low);
    TrimShrinks(low);
    Strip0xFacts(Trim(low));
    if Trim(low) == low {
      if "0X" <= rest {
        Strip0xFacts(low[2..]);
        assert |NormHex(low)| < |low|;
      } else {
        assert !("0x" <= low);
      }
    } else {
      assert |NormHex(low)| < |low|;
    }
  }

  lemma TrimShrinks(s: string)
    ensures |Trim(s)| <= |s|
    ensures |Trim(s)| == |s| ==> Trim(s) == s
  {
    TrimStartShrinks(s);
    TrimEndFacts(TrimStart(s));
  }

  lemma {:induction false} TrimStartShrinks(s: string)
    ensures |TrimStart(s)| <= |s|
    ensures |TrimStart(s)| == |s| ==> TrimStart(s) == s
  {
    if s != "" && IsSpace(s[0]) {
      TrimStartShrinks(s[1..]);
    }
  }

  ghost predicate HexDigits(h: string) {
    forall i :: 0 <= i < |h| ==> Hex.Value(h[i]).Some?
  }

  /** The documented inputs, hex digits with an optional "0x", are clean. */
  lemma HexIsClean(h: string)
    requires HexDigits(h)
    ensures CleanHex(h) && CleanHex("0x" + h)
    ensures NormHex("0x" + h) == NormHex(h) == Lower(h)
  {
    TrimFixed(h);
    TrimFixed("0x" + h);
    assert ("0x" + h)[2..] == h;
  }

  lemma LowerHexFixed(h: string)
    requires Hex.LowerHex(h)
    ensures NormHex(h) == h && Strip0x(h) == h
  {
    TrimFixed(h);
    assert Lower(h) == h;
  }

  // -------------------------------------------------------- issue, then verify

  /** A genuine signature has the ed25519 length and verifies. */
  ghost predicate Correct(authority: Authority, verify: Verifier) {
    && |authority.publicKey| == 32
    && forall m :: authority.sign(m).Some? ==>
         |authority.sign(m).value| == 64 && verify(authority.publicKey, m, authority.sign(m).value)
  }

  /** The signature made for one message does not verify for one given other message. */
  ghost predicate BindsTo(authority: Authority, verify: Verifier, signed: string, other: string) {
    authority.sign(signed).Some? && verify(authority.publicKey, other, authority.sign(signed).value) ==> other == signed
  }

  /** The string recomputed from the issued fields is the string that was signed,
      exactly when the given key text is clean. */
  lemma SignedStringSurvives(authority: Authority, wallet: string, deviceId: string, mlsKeyHex: string, issuedAtMs: i64)
    requires IssueV2(authority, wallet, deviceId, mlsKeyHex, issuedAtMs).Some?
    ensures var c := IssueV2(authority, wallet, deviceId, mlsKeyHex, issuedAtMs).value;
      SignedCanonical(c) == CanonicalV2(wallet, deviceId, mlsKeyHex, issuedAtMs, Hex.Encode(authority.publicKey))
      <==> CleanHex(mlsKeyHex)
  {
    var c := IssueV2(authority, wallet, deviceId, mlsKeyHex, issuedAtMs).value;
    StoredFieldsFixed(wallet, deviceId);
    NormHexIdempotent(mlsKeyHex);
    var head := "myso-mls-device-v2:" + Lower(Trim(wallet)) + ":" + Trim(deviceId) + ":";
    var date, key := Decimal(issuedAtMs), NormHex(Hex.Encode(authority.publicKey));
    TailAssoc(head + c.mlsKey, date, key);
    TailAssoc(head + NormHex(c.mlsKey), date, key);
    SameMiddle(head, NormHex(c.mlsKey), c.mlsKey, ":" + date + ":" + key);
  }

  lemma StoredFieldsFixed(wallet: string, deviceId: string)
    ensures Lower(Trim(Lower(Trim(wallet)))) == Lower(Trim(wallet))
    ensures Trim(Trim(deviceId)) == Trim(deviceId)
  {
    TrimGivesTrimmed(wallet);
    LowerFacts(Trim(wallet));
    TrimFixed(Lower(Trim(wallet)));
    TrimGivesTrimmed(deviceId);
    TrimFixed(Trim(deviceId));
  }

  lemma TailAssoc(x: string, date: string, key: string)
    ensures x + ":" + date + ":" + key == x + (":" + date + ":" + key)
  {
  }

  lemma SameMiddle(head: string, a: string, b: string, tail: string)
    ensures head + a + tail == head + b + tail <==> a == b
  {
    if head + a + tail == head + b + tail {
      var s, t := head + a + tail, head + b + tail;
      assert |a| == |b|;
      assert a == s[|head|..|head| + |a|] && b == t[|head|..|head| + |b|];
    }
  }

  /** Issuing then verifying succeeds when the given key text is clean; and otherwise it fails, unless the
      signature also verifies for the one different string that is recomputed. */
  lemma IssueThenVerify(authority: Authority, verify: Verifier, wallet: string, deviceId: string,
                        mlsKeyHex: string, issuedAtMs: i64)
    requires Correct(authority, verify)
    requires IssueV2(authority, wallet, deviceId, mlsKeyHex, issuedAtMs).Some?
    ensures var c := IssueV2(authority, wallet, deviceId, mlsKeyHex, issuedAtMs).value;
      var signed := CanonicalV2(wallet, deviceId, mlsKeyHex, issuedAtMs, Hex.Encode(authority.publicKey));
      && (CleanHex(mlsKeyHex) ==> VerifyAuthoritySignature(verify, c))
      && (BindsTo(authority, verify, signed, SignedCanonical(c)) ==>
            (VerifyAuthoritySignature(verify, c) <==> CleanHex(mlsKeyHex)))
  {
    var c := IssueV2(authority, wallet, deviceId, mlsKeyHex, issuedAtMs).value;
    var signed := CanonicalV2(wallet, deviceId, mlsKeyHex, issuedAtMs, Hex.Encode(authority.publicKey));
    SignedStringSurvives(authority, wallet, deviceId, mlsKeyHex, issuedAtMs);
    Hex.RoundTrip(authority.publicKey);
    LowerHexFixed(Hex.Encode(authority.publicKey));
    var sig := authority.sign(signed).value;
    Hex.RoundTrip(sig);
    LowerHexFixed(Hex.Encode(sig));
  }

  /** A certificate issued for a device's own key names that key, and is accepted as an identity
      exactly when its wallet and device id are not blank. */
  lemma IssuedNamesKey(authority: Authority, wallet: string, deviceId: string, key: seq<byte>, issuedAtMs: i64)
    requires IssueV2(authority, wallet, deviceId, Hex.Encode(key), issuedAtMs).Some?
    ensures var c := IssueV2(authority, wallet, deviceId, Hex.Encode(key), issuedAtMs);
      && (forall k :: NamesKey(c.value, k) <==> k == key)
      && (FromIdentity(c) == c <==> Trim(wallet) != "" && Trim(deviceId) != "")
  {
    KeyTextReads(key);
    var c := IssueV2(authority, wallet, deviceId, Hex.Encode(key), issuedAtMs).value;
    assert Hex.Decode(Strip0x(c.mlsKey)) == Some(key);
  }

  lemma KeyTextReads(key: seq<byte>)
    ensures Hex.Decode(Strip0x(NormHex(Hex.Encode(key)))) == Some(key)
  {
    Hex.RoundTrip(key);
    LowerHexFixed(Hex.Encode(key));
  }

  /** Decoding is exact: a text decodes to the bytes exactly when it is their hex text, in either letter case. */
  lemma {:induction false} DecodeExactly(text: string, data: seq<byte>)
    ensures Hex.Decode(text) == Some(data) <==> Lower(text) == Hex.Encode(data)
  {
    if |text| >= 2 {
      var hi, lo := text[0], text[1];
      if data == [] {
        assert Lower(text) != "";
      } else {
        DecodeExactly(text[2..], data[1..]);
        DigitExactly(hi, data[0] / 16);
        DigitExactly(lo, data[0] % 16);
        PairExactly(text, data);
      }
    } else if |text| == 1 && data != [] {
      assert |Hex.Encode(data)| >= 2;
    }
  }

  lemma DigitExactly(c: char, n: int)
    requires 0 <= n < 16
    ensures Hex.Value(c) == Some(n) <==> LowerChar(c) == Hex.Digit(n)
  {
  }

  lemma PairExactly(text: string, data: seq<byte>)
    requires |text| >= 2 && data != []
    requires Hex.Value(text[0]) == Some(data[0] / 16) <==> LowerChar(text[0]) == Hex.Digit(data[0] / 16)
    requires Hex.Value(text[1]) == Some(data[0] % 16) <==> LowerChar(text[1]) == Hex.Digit(data[0] % 16)
    requires Hex.Decode(text[2..]) == Some(data[1..]) <==> Lower(text[2..]) == Hex.Encode(data[1..])
    ensures Hex.Decode(text) == Some(data) <==> Lower(text) == Hex.Encode(data)
  {
    if Lower(text) == Hex.Encode(data) {
      LowerParts(text, data);
      DecodeFromParts(text, data);
    }
    if Hex.Decode(text) == Some(data) {
      DecodedPair(text, data);
      LowerFromParts(text, data);
    }
  }

  lemma LowerParts(text: string, data: seq<byte>)
    requires |text| >= 2 && data != [] && Lower(text) == Hex.Encode(data)
    ensures LowerChar(text[0]) == Hex.Digit(data[0] / 16) && LowerChar(text[1]) == Hex.Digit(data[0] % 16)
    ensures Lower(text[2..]) == Hex.Encode(data[1..])
  {
    var t := Lower(text);
    assert t[0] == LowerChar(text[0]) && t[1] == LowerChar(text[1]) && t[2..] == Lower(text[2..]);
    EncodeOfPair(data);
  }

  lemma LowerFromParts(text: string, data: seq<byte>)
    requires |text| >= 2 && data != []
    requires LowerChar(text[0]) == Hex.Digit(data[0] / 16) && LowerChar(text[1]) == Hex.Digit(data[0] % 16)
    requires Lower(text[2..]) == Hex.Encode(data[1..])
    ensures Lower(text) == Hex.Encode(data)
  {
    assert Lower(text) == [LowerChar(text[0]), LowerChar(text[1])] + Lower(text[2..]);
  }

  lemma DecodeFromParts(text: string, data: seq<byte>)
    requires |text| >= 2 && data != []
    requires Hex.Value(text[0]) == Some(data[0] / 16) && Hex.Value(text[1]) == Some(data[0] % 16)
    requires Hex.Decode(text[2..]) == Some(data[1..])
    ensures Hex.Decode(text) == Some(data)
  {
    assert 16 * (data[0] / 16) + data[0] % 16 == data[0];
    assert data == [data[0]] + data[1..];
  }

  lemma EncodeOfPair(data: seq<byte>)
    requires data != []
    ensures |Hex.Encode(data)| >= 2 && Hex.Encode(data)[2..] == Hex.Encode(data[1..])
    ensures Hex.Encode(data)[0] == Hex.Digit(data[0] / 16) && Hex.Encode(data)[1] == Hex.Digit(data[0] % 16)
  {
  }

  lemma DecodedPair(text: string, data: seq<byte>)
    requires |text| >= 2 && data != [] && Hex.Decode(text) == Some(data)
    ensures Hex.Value(text[0]) == Some(data[0] / 16) && Hex.Value(text[1]) == Some(data[0] % 16)
    ensures Hex.Decode(text[2..]) == Some(data[1..])
  {
    var n := 16 * Hex.Value(text[0]).value + Hex.Value(text[1]).value;
    assert data[0] == n && data[1..] == Hex.Decode(text[2..]).value;
    ValueIsDigit(text[0]);
    ValueIsDigit(text[1]);
    assert n / 16 == Hex.Value(text[0]).value && n % 16 == Hex.Value(text[1]).value;
  }

  lemma ValueIsDigit(c: char)
    ensures Hex.Value(c).Some? ==> 0 <= Hex.Value(c).value < 16
  {
  }

  /** What an issued certificate holds: version 2, the wallet in lower case without outer white space, the
      trimmed device id, the normalised key, the time, the signature and the authority key in hex. */
  lemma IssuedFields(authority: Authority, wallet: string, deviceId: string, mlsKeyHex: string, issuedAtMs: i64)
    requires IssueV2(authority, wallet, deviceId, mlsKeyHex, issuedAtMs).Some?
    ensures var c := IssueV2(authority, wallet, deviceId, mlsKeyHex, issuedAtMs).value;
      && c.v == 2 && c.signerKey == "authority" && c.issuedAtMs == issuedAtMs
      && Trimmed(c.wallet) && (forall i :: 0 <= i < |c.wallet| ==> !('A' <= c.wallet[i] <= 'Z'))
      && Trimmed(c.deviceId) && c.deviceId == Trim(deviceId) && c.mlsKey == NormHex(mlsKeyHex)
      && c.authorityKey == Some(Hex.Encode(authority.publicKey))
      && Hex.Decode(c.sig) == authority.sign(CanonicalV2(wallet, deviceId, mlsKeyHex, issuedAtMs, c.authorityKey.value))
  {
    TrimGivesTrimmed(wallet);
    TrimGivesTrimmed(deviceId);
    LowerFacts(Trim(wallet));
    var sig := authority.sign(CanonicalV2(wallet, deviceId, mlsKeyHex, issuedAtMs, Hex.Encode(authority.publicKey)));
    Hex.RoundTrip(sig.value);
  }

  /** Exactly which certificates are read back as identities. */
  lemma IdentityExactly(c: DeviceCertificate)
    ensures FromIdentity(None) == None
    ensures FromIdentity(Some(c)) == if
        && c.wallet != "" && c.deviceId != ""
        && ((c.v == 1 && c.authorityKey == None) || (c.v == 2 && c.authorityKey != None))
      then Some(c) else None
  {
  }

  /** Exactly which certificates verify: version 2 and signed by the authority, with 32 bytes of key and 64 of
      signature whose hex texts are stored, up to normalisation, and whose signature verifies for the string
      recomputed from the fields. */
  lemma VerifiesExactly(verify: Verifier, c: DeviceCertificate)
    ensures VerifyAuthoritySignature(verify, c) <==>
      && c.v == 2 && c.signerKey == "authority" && c.authorityKey.Some?
      && exists key, sig ::
        && |key| == 32 && |sig| == 64
        && NormHex(c.authorityKey.value) == Hex.Encode(key) && NormHex(c.sig) == Hex.Encode(sig)
        && verify(key, CanonicalV2(c.wallet, c.deviceId, c.mlsKey, c.issuedAtMs, c.authorityKey.value), sig)
  {
    if c.authorityKey.Some? {
      forall key ensures Hex.Decode(NormHex(c.authorityKey.value)) == Some(key)
          <==> NormHex(c.authorityKey.value) == Hex.Encode(key)
      {
        NormDecodes(c.authorityKey.value, key);
      }
      forall sig ensures Hex.Decode(NormHex(c.sig)) == Some(sig) <==> NormHex(c.sig) == Hex.Encode(sig) {
        NormDecodes(c.sig, sig);
      }
    }
  }

  lemma NormDecodes(h: string, data: seq<byte>)
    ensures Hex.Decode(NormHex(h)) == Some(data) <==> NormHex(h) == Hex.Encode(data)
  {
    DecodeExactly(NormHex(h), data);
    LowerFacts(Strip0x(Trim(h)));
  }

  // ---------------------------------------------- canonical strings are injective

  lemma LastColon(a: string, b: string, a': string, b': string)
    requires ':' !in b && ':' !in b'
    requires a + ":" + b == a' + ":" + b'
    ensures a == a' && b == b'
  {
    var s, t := a + ":" + b, a' + ":" + b';
    assert s[|a|] == ':' && t[|a'|] == ':';
    assert forall i :: |a| < i < |s| ==> s[i] == b[i - |a| - 1];
    assert forall i :: |a'| < i < |t| ==> t[i] == b'[i - |a'| - 1];
    assert |a| == |a'|;
    assert a == s[..|a|] && a' == t[..|a'|];
    assert b == s[|a| + 1..] && b' == t[|a'| + 1..];
  }

  /** What a canonical string is meant to bind. */
  datatype Fields = Fields(wallet: string, deviceId: string, mlsKey: string, issuedAtMs: i64)

  function Normal(wallet: string, deviceId: string, mlsKeyHex: string, issuedAtMs: i64): Fields {
    Fields(Lower(Trim(wallet)), Trim(deviceId), NormHex(mlsKeyHex), issuedAtMs)
  }

  function Joined(prefix: string, f: Fields): string {
    prefix + f.wallet + ":" + f.deviceId + ":" + f.mlsKey + ":" + Decimal(f.issuedAtMs)
  }

  /** The texts that normalisation produces. */
  ghost predicate IsNormal(f: Fields) {
    && Lower(f.wallet) == f.wallet && Trimmed(f.wallet)
    && Trimmed(f.deviceId)
    && Lower(f.mlsKey) == f.mlsKey && EndsClean(f.mlsKey)
  }

  predicate EndsClean(s: string) {
    s != "" ==> !IsSpace(s[|s| - 1])
  }

  predicate BeginsClean(s: string) {
    s != "" ==> !IsSpace(s[0])
  }

  lemma NormalIsNormal(w: string, d: string, k: string, t: i64)
    ensures IsNormal(Normal(w, d, k, t))
  {
    TrimGivesTrimmed(w);
    TrimGivesTrimmed(d);
    TrimGivesTrimmed(k);
    LowerFacts(Trim(w));
    Strip0xFacts(Trim(k));
    LowerFacts(Strip0x(Trim(k)));
  }

  /** A text that normalises to the given one. */
  function RawKey(key: string): string {
    if "0x" <= key then "0X" + key[2..] else "0x" + key
  }

  lemma RawKeyNormalises(key: string)
    requires Lower(key) == key && EndsClean(key)
    ensures NormHex(RawKey(key)) == key
  {
    TrimFixed(RawKey(key));
    if "0x" <= key {
      assert Lower(RawKey(key)) == "0x" + Lower(key[2..]) == key;
    } else {
      StripOnce(key);
    }
  }

  lemma NormalArises(f: Fields)
    requires IsNormal(f)
    ensures Normal(f.wallet, f.deviceId, RawKey(f.mlsKey), f.issuedAtMs) == f
  {
    TrimFixed(f.wallet);
    TrimFixed(f.deviceId);
    RawKeyNormalises(f.mlsKey);
  }

  // ------------------------------------------------ which fields a canonical string binds

  /** A colon of the wallet can be read as the separator behind it: neither side changes by trimming. */
  predicate WalletMoves(f: Fields) {
    exists i :: 0 <= i < |f.wallet| && f.wallet[i] == ':'
      && EndsClean(f.wallet[..i]) && BeginsClean(f.wallet[i + 1..])
  }

  /** A colon of the device id can be read as the separator before it, which puts the front into the
      lower-case wallet, or as the one behind it, which puts the rest into the lower-case key. */
  predicate DeviceMoves(f: Fields) {
    exists i :: 0 <= i < |f.deviceId| && f.deviceId[i] == ':'
      && EndsClean(f.deviceId[..i])
      && ((IsLower(f.deviceId[..i]) && BeginsClean(f.deviceId[i + 1..])) || IsLower(f.deviceId[i + 1..]))
  }

  predicate IsLower(s: string) {
    Lower(s) == s
  }

  /** A colon of the key can be read as the separator before it. */
  predicate KeyMoves(f: Fields) {
    exists i :: 0 <= i < |f.mlsKey| && f.mlsKey[i] == ':' && EndsClean(f.mlsKey[..i])
  }

  /** Some colon within a field can be read as a separator. A caller can decide this from the fields. */
  predicate Movable(f: Fields) {
    WalletMoves(f) || DeviceMoves(f) || KeyMoves(f)
  }

  function Middle(f: Fields): string {
    f.wallet + ":" + (f.deviceId + ":" + f.mlsKey)
  }

  /** Where the front of one reading is shorter, its end is a colon of the other's front. */
  lemma ShorterFront(a: string, b: string, a': string, b': string)
    requires a + ":" + b == a' + ":" + b' && |a'| < |a|
    ensures a[|a'|] == ':' && a' == a[..|a'|] && b' == a[|a'| + 1..] + ":" + b
  {
    var s, t := a + ":" + b, a' + ":" + b';
    assert a[|a'|] == s[|a'|] == t[|a'|];
    assert a' == t[..|a'|] == s[..|a'|] == a[..|a'|];
    assert b' == t[|a'| + 1..] == s[|a'| + 1..];
    assert s[|a'| + 1..] == a[|a'| + 1..] + ":" + b;
  }

  lemma SameFront(a: string, b: string, a': string, b': string)
    requires a + ":" + b == a' + ":" + b' && |a'| == |a|
    ensures a == a' && b == b'
  {
    var s, t := a + ":" + b, a' + ":" + b';
    assert a == s[..|a|] && a' == t[..|a|];
    assert b == s[|a| + 1..] && b' == t[|a| + 1..];
  }

  /** The front of a trimmed text, or a colon, stands first. */
  lemma FrontBeginsClean(v: string, rest: string, d: string, k: string)
    requires v + ":" + rest == d + ":" + k && Trimmed(d)
    ensures BeginsClean(v)
  {
    var s, t := v + ":" + rest, d + ":" + k;
    if v != "" {
      assert v[0] == s[0] == t[0] == if d == "" then ':' else d[0];
    }
  }

  lemma LowerPart(s: string, i: nat, j: nat)
    requires IsLower(s) && i <= j <= |s|
    ensures IsLower(s[i..j])
  {
    assert forall n :: 0 <= n < |s| ==> LowerChar(s[n]) == s[n] by {
      assert forall n :: 0 <= n < |s| ==> Lower(s)[n] == LowerChar(s[n]);
    }
  }

  lemma LowerSuffix(s: string, i: nat)
    requires IsLower(s) && i <= |s|
    ensures IsLower(s[i..])
  {
    LowerPart(s, i, |s|);
    assert s[i..|s|] == s[i..];
  }

  /** Another reading with a shorter wallet. */
  lemma ReadInWallet(f: Fields, g: Fields)
    requires IsNormal(f) && IsNormal(g) && Middle(f) == Middle(g) && |g.wallet| < |f.wallet|
    ensures WalletMoves(f)
  {
    var i := |g.wallet|;
    var rest := f.deviceId + ":" + f.mlsKey;
    ShorterFront(f.wallet, rest, g.wallet, g.deviceId + ":" + g.mlsKey);
    FrontBeginsClean(f.wallet[i + 1..], rest, g.deviceId, g.mlsKey);
  }

  /** Another reading with a longer wallet. */
  lemma ReadIntoWallet(f: Fields, g: Fields)
    requires IsNormal(f) && IsNormal(g) && Middle(f) == Middle(g) && |g.wallet| > |f.wallet|
    ensures DeviceMoves(f) || KeyMoves(f)
  {
    ShorterFront(g.wallet, g.deviceId + ":" + g.mlsKey, f.wallet, f.deviceId + ":" + f.mlsKey);
    var u := g.wallet[|f.wallet| + 1..];
    LowerPart(g.wallet, |f.wallet| + 1, |g.wallet|);
    assert g.wallet[|f.wallet| + 1..|g.wallet|] == u && EndsClean(u);
    ReadBehind(f, u, g.deviceId, g.mlsKey);
  }

  lemma ReadBehind(f: Fields, u: string, d: string, k: string)
    requires f.deviceId + ":" + f.mlsKey == u + ":" + (d + ":" + k)
    requires IsLower(u) && EndsClean(u) && Trimmed(d)
    ensures DeviceMoves(f) || KeyMoves(f)
  {
    var rest := d + ":" + k;
    if |u| < |f.deviceId| {
      ShorterFront(f.deviceId, f.mlsKey, u, rest);
      FrontBeginsClean(f.deviceId[|u| + 1..], f.mlsKey, d, k);
    } else if |u| == |f.deviceId| {
      SameFront(f.deviceId, f.mlsKey, u, rest);
      ColonBehind(d, k, f.mlsKey);
    } else {
      ReadPastDevice(f, u, rest);
    }
  }

  lemma ReadPastDevice(f: Fields, u: string, rest: string)
    requires f.deviceId + ":" + f.mlsKey == u + ":" + rest && EndsClean(u) && |u| > |f.deviceId|
    ensures KeyMoves(f)
  {
    ShorterFront(u, rest, f.deviceId, f.mlsKey);
    var v := u[|f.deviceId| + 1..];
    ColonBehind(v, rest, f.mlsKey);
    assert v != "" ==> v[|v| - 1] == u[|u| - 1];
  }

  lemma ColonBehind(u: string, v: string, s: string)
    requires s == u + ":" + v
    ensures |u| < |s| && s[|u|] == ':' && s[..|u|] == u
  {
  }

  /** Another reading with the same wallet. */
  lemma ReadBehindWallet(f: Fields, g: Fields)
    requires IsNormal(f) && IsNormal(g) && Middle(f) == Middle(g) && |g.wallet| == |f.wallet|
    ensures DeviceMoves(f) || KeyMoves(f) || (f.wallet, f.deviceId, f.mlsKey) == (g.wallet, g.deviceId, g.mlsKey)
  {
    SameFront(f.wallet, f.deviceId + ":" + f.mlsKey, g.wallet, g.deviceId + ":" + g.mlsKey);
    if |g.deviceId| < |f.deviceId| {
      ShorterFront(f.deviceId, f.mlsKey, g.deviceId, g.mlsKey);
      var v := f.deviceId[|g.deviceId| + 1..];
      ColonBehind(v, f.mlsKey, g.mlsKey);
      LowerPart(g.mlsKey, 0, |v|);
      assert g.mlsKey[0..|v|] == v;
    } else if |g.deviceId| > |f.deviceId| {
      ShorterFront(g.deviceId, g.mlsKey, f.deviceId, f.mlsKey);
      ColonBehind(g.deviceId[|f.deviceId| + 1..], g.mlsKey, f.mlsKey);
    } else {
      SameFront(f.deviceId, f.mlsKey, g.deviceId, g.mlsKey);
    }
  }

  lemma OtherReadingMoves(f: Fields, g: Fields)
    requires IsNormal(f) && IsNormal(g) && Middle(f) == Middle(g) && f.issuedAtMs == g.issuedAtMs && f != g
    ensures Movable(f)
  {
    if |g.wallet| < |f.wallet| {
      ReadInWallet(f, g);
    } else if |g.wallet| > |f.wallet| {
      ReadIntoWallet(f, g);
    } else {
      ReadBehindWallet(f, g);
    }
  }

  /** The other reading, when a colon moves. */
  lemma MovedReading(f: Fields) returns (g: Fields)
    requires IsNormal(f) && Movable(f)
    ensures IsNormal(g) && g != f && Middle(g) == Middle(f) && g.issuedAtMs == f.issuedAtMs
  {
    if WalletMoves(f) {
      g := MoveFromWallet(f);
    } else if DeviceMoves(f) {
      g := MoveFromDevice(f);
    } else {
      g := MoveFromKey(f);
    }
  }

  lemma Regroup(a: string, b: string, c: string)
    ensures a + ":" + b + ":" + c == a + ":" + (b + ":" + c)
  {
  }

  lemma AtColon(s: string, i: nat)
    requires i < |s| && s[i] == ':'
    ensures s == s[..i] + ":" + s[i + 1..]
  {
  }

  lemma MoveFromWallet(f: Fields) returns (g: Fields)
    requires IsNormal(f) && WalletMoves(f)
    ensures IsNormal(g) && g != f && Middle(g) == Middle(f) && g.issuedAtMs == f.issuedAtMs
  {
    var i :| 0 <= i < |f.wallet| && f.wallet[i] == ':' && EndsClean(f.wallet[..i]) && BeginsClean(f.wallet[i + 1..]);
    var u, v := f.wallet[..i], f.wallet[i + 1..];
    g := Fields(u, v + ":" + f.deviceId, f.mlsKey, f.issuedAtMs);
    LowerPart(f.wallet, 0, i);
    assert f.wallet[0..i] == u;
    AtColon(f.wallet, i);
    Regroup(u, v, f.deviceId + ":" + f.mlsKey);
    Regroup(v, f.deviceId, f.mlsKey);
    JoinTrimmed(v, f.deviceId);
  }

  /** Around a colon, only the outer ends of two texts have to be clean. */
  lemma JoinTrimmed(a: string, b: string)
    requires BeginsClean(a) && EndsClean(b)
    ensures Trimmed(a + ":" + b)
  {
    var s := a + ":" + b;
    assert s[0] == if a == "" then ':' else a[0];
    assert s[|s| - 1] == if b == "" then ':' else b[|b| - 1];
  }

  lemma MoveFromDevice(f: Fields) returns (g: Fields)
    requires IsNormal(f) && DeviceMoves(f)
    ensures IsNormal(g) && g != f && Middle(g) == Middle(f) && g.issuedAtMs == f.issuedAtMs
  {
    var i :| 0 <= i < |f.deviceId| && f.deviceId[i] == ':' && EndsClean(f.deviceId[..i])
      && ((IsLower(f.deviceId[..i]) && BeginsClean(f.deviceId[i + 1..])) || IsLower(f.deviceId[i + 1..]));
    AtColon(f.deviceId, i);
    if IsLower(f.deviceId[i + 1..]) {
      g := MoveIntoKey(f, f.deviceId[..i], f.deviceId[i + 1..]);
    } else {
      g := MoveIntoWallet(f, f.deviceId[..i], f.deviceId[i + 1..]);
    }
  }

  lemma MoveIntoKey(f: Fields, u: string, v: string) returns (g: Fields)
    requires IsNormal(f) && f.deviceId == u + ":" + v && EndsClean(u) && IsLower(v)
    ensures IsNormal(g) && g != f && Middle(g) == Middle(f) && g.issuedAtMs == f.issuedAtMs
  {
    g := Fields(f.wallet, u, v + ":" + f.mlsKey, f.issuedAtMs);
    Regroup(u, v, f.mlsKey);
    assert u != "" ==> u[0] == f.deviceId[0];
    EndsLikeTail(v, f.mlsKey);
  }

  lemma EndsLikeTail(a: string, b: string)
    requires EndsClean(b)
    ensures EndsClean(a + ":" + b)
  {
    var s := a + ":" + b;
    assert s[|s| - 1] == if b == "" then ':' else b[|b| - 1];
  }

  lemma MoveIntoWallet(f: Fields, u: string, v: string) returns (g: Fields)
    requires IsNormal(f) && f.deviceId == u + ":" + v && EndsClean(u) && IsLower(u) && BeginsClean(v)
    ensures IsNormal(g) && g != f && Middle(g) == Middle(f) && g.issuedAtMs == f.issuedAtMs
  {
    g := Fields(f.wallet + ":" + u, v, f.mlsKey, f.issuedAtMs);
    JoinTrimmed(f.wallet, u);
    Regroup(f.wallet, u, v + ":" + f.mlsKey);
    Regroup(u, v, f.mlsKey);
    assert v != "" ==> v[|v| - 1] == f.deviceId[|f.deviceId| - 1];
  }

  lemma MoveFromKey(f: Fields) returns (g: Fields)
    requires IsNormal(f) && KeyMoves(f)
    ensures IsNormal(g) && g != f && Middle(g) == Middle(f) && g.issuedAtMs == f.issuedAtMs
  {
    var i :| 0 <= i < |f.mlsKey| && f.mlsKey[i] == ':' && EndsClean(f.mlsKey[..i]);
    AtColon(f.mlsKey, i);
    LowerSuffix(f.mlsKey, i + 1);
    g := MoveIntoDevice(f, f.mlsKey[..i], f.mlsKey[i + 1..]);
  }

  lemma MoveIntoDevice(f: Fields, u: string, v: string) returns (g: Fields)
    requires IsNormal(f) && f.mlsKey == u + ":" + v && EndsClean(u) && IsLower(v)
    ensures IsNormal(g) && g != f && Middle(g) == Middle(f) && g.issuedAtMs == f.issuedAtMs
  {
    g := Fields(f.wallet, f.deviceId + ":" + u, v, f.issuedAtMs);
    Regroup(f.deviceId, u, v);
    JoinTrimmed(f.deviceId, u);
    assert v != "" ==> v[|v| - 1] == f.mlsKey[|f.mlsKey| - 1];
  }

  lemma JoinedIsMiddle(prefix: string, f: Fields)
    ensures Joined(prefix, f) == prefix + Middle(f) + ":" + Decimal(f.issuedAtMs)
  {
    assert prefix + f.wallet + ":" + f.deviceId + ":" + f.mlsKey == prefix + Middle(f);
  }

  lemma SameJoined(prefix: string, f: Fields, g: Fields)
    ensures Joined(prefix, f) == Joined(prefix, g) <==> Middle(f) == Middle(g) && f.issuedAtMs == g.issuedAtMs
  {
    JoinedIsMiddle(prefix, f);
    JoinedIsMiddle(prefix, g);
    if Joined(prefix, f) == Joined(prefix, g) {
      DecimalHasNoColon(f.issuedAtMs);
      DecimalHasNoColon(g.issuedAtMs);
      LastColon(prefix + Middle(f), Decimal(f.issuedAtMs), prefix + Middle(g), Decimal(g.issuedAtMs));
      DecimalInjective(f.issuedAtMs, g.issuedAtMs);
      assert Middle(f) == (prefix + Middle(f))[|prefix|..] && Middle(g) == (prefix + Middle(g))[|prefix|..];
    }
  }

  lemma ColonStays(s: string)
    requires ':' !in s
    ensures ':' !in Trim(s) && ':' !in NormHex(s)
  {
    TrimKeepsOnly(s, ':');
    Strip0xFacts(Trim(s));
    var rest := Strip0x(Trim(s));
    assert ':' !in rest;
    assert forall i :: 0 <= i < |rest| ==> LowerChar(rest[i]) != ':';
  }

  lemma TrimKeepsOnly(s: string, c: char)
    requires c !in s
    ensures c !in Trim(s)
  {
    TrimStartKeepsOnly(s, c);
    TrimEndFacts(TrimStart(s));
  }

  lemma {:induction false} TrimStartKeepsOnly(s: string, c: char)
    requires c !in s
    ensures c !in TrimStart(s)
  {
    if s != "" && IsSpace(s[0]) {
      TrimStartKeepsOnly(s[1..], c);
    }
  }

  /** The fields of a text, separated by ':'. */
  function ColonFields(s: string): (r: seq<string>)
    ensures |r| >= 1
  {
    if s == "" then [""] else Led(s[0], ColonFields(s[1..]))
  }

  function Led(c: char, fields: seq<string>): (r: seq<string>)
    requires |fields| >= 1
    ensures |r| >= 1
  {
    if c == ':' then [""] + fields else [[c] + fields[0]] + fields[1..]
  }

  lemma LedJoin(c: char, x: seq<string>, y: seq<string>)
    requires |x| >= 1
    ensures Led(c, x + y) == Led(c, x) + y
  {
  }

  lemma {:induction false} ColonFieldsJoin(a: string, b: string)
    ensures ColonFields(a + ":" + b) == ColonFields(a) + ColonFields(b)
  {
    var s := a + ":" + b;
    if a == "" {
      assert s[1..] == b;
    } else {
      ColonFieldsJoin(a[1..], b);
      assert s[1..] == a[1..] + ":" + b && s[0] == a[0];
      LedJoin(a[0], ColonFields(a[1..]), ColonFields(b));
    }
  }

  lemma {:induction false} ColonFieldsOne(a: string)
    requires ':' !in a
    ensures ColonFields(a) == [a]
  {
    if a != "" {
      ColonFieldsOne(a[1..]);
      assert [a[0]] + a[1..] == a;
    }
  }

  lemma NormalHasNoColon(w: string, d: string, k: string)
    requires ':' !in w && ':' !in d && ':' !in k
    ensures ':' !in Lower(Trim(w)) && ':' !in Trim(d) && ':' !in NormHex(k)
  {
    ColonStays(w); ColonStays(d); ColonStays(k);
    assert forall c :: c in Trim(w) ==> LowerChar(c) != ':';
  }

  /** The layout that the other platforms rely on: the fields of the signed strings, in this order. A field
      without ':' is one part (ColonFieldsOne). */
  lemma CanonicalLayout(w: string, d: string, k: string, t: i64)
    ensures ColonFields(Canonical(w, d, k, t)) ==
      ["myso-mls-device-v1"] + ColonFields(Lower(Trim(w))) + ColonFields(Trim(d)) + ColonFields(NormHex(k)) + [Decimal(t)]
  {
    JoinedLayout("myso-mls-device-v1", "myso-mls-device-v1:", Normal(w, d, k, t));
  }

  lemma JoinedLayout(tag: string, prefix: string, f: Fields)
    requires prefix == tag + ":" && ':' !in tag
    ensures ColonFields(Joined(prefix, f)) ==
      [tag] + ColonFields(f.wallet) + ColonFields(f.deviceId) + ColonFields(f.mlsKey) + [Decimal(f.issuedAtMs)]
  {
    ColonFieldsOne(tag);
    DecimalHasNoColon(f.issuedAtMs);
    ColonFieldsOne(Decimal(f.issuedAtMs));
    ColonFieldsJoin(tag, f.wallet);
    ColonFieldsJoin(tag + ":" + f.wallet, f.deviceId);
    ColonFieldsJoin(tag + ":" + f.wallet + ":" + f.deviceId, f.mlsKey);
    ColonFieldsJoin(tag + ":" + f.wallet + ":" + f.deviceId + ":" + f.mlsKey, Decimal(f.issuedAtMs));
  }

  lemma CanonicalV2Layout(w: string, d: string, k: string, t: i64, a: string)
    ensures ColonFields(CanonicalV2(w, d, k, t, a)) ==
      ["myso-mls-device-v2"] + ColonFields(Lower(Trim(w))) + ColonFields(Trim(d)) + ColonFields(NormHex(k)) + [Decimal(t)]
      + ColonFields(NormHex(a))
  {
    JoinedLayout("myso-mls-device-v2", "myso-mls-device-v2:", Normal(w, d, k, t));
    ColonFieldsJoin(Joined("myso-mls-device-v2:", Normal(w, d, k, t)), NormHex(a));
  }

  /** Exactly when a v1 string determines every field, the timestamp included: no colon within one of its
      normalised fields can be read as a separator. The other fields range over all texts. */
  lemma CanonicalBindsExactly(w: string, d: string, k: string, t: i64)
    ensures (forall w', d', k', t': i64 :: Canonical(w', d', k', t') == Canonical(w, d, k, t) ==>
               Normal(w', d', k', t') == Normal(w, d, k, t))
      <==> !Movable(Normal(w, d, k, t))
  {
    var f := Normal(w, d, k, t);
    NormalIsNormal(w, d, k, t);
    if Movable(f) {
      var g := MovedReading(f);
      NormalArises(g);
      SameJoined("myso-mls-device-v1:", f, g);
      assert Canonical(g.wallet, g.deviceId, RawKey(g.mlsKey), g.issuedAtMs) == Canonical(w, d, k, t);
    } else {
      forall w', d', k', t': i64 | Canonical(w', d', k', t') == Canonical(w, d, k, t)
        ensures Normal(w', d', k', t') == f
      {
        var g := Normal(w', d', k', t');
        NormalIsNormal(w', d', k', t');
        SameJoined("myso-mls-device-v1:", f, g);
        FixedReading(f, g);
      }
    }
  }

  lemma FixedReading(f: Fields, g: Fields)
    requires IsNormal(f) && IsNormal(g) && Middle(f) == Middle(g) && f.issuedAtMs == g.issuedAtMs
    requires !Movable(f)
    ensures f == g
  {
    if f != g {
      OtherReadingMoves(f, g);
    }
  }

  /** The same for v2 strings among authority keys without a colon, such as all hex texts. */
  lemma HexKeysBindExactly(w: string, d: string, k: string, t: i64, a: string)
    requires ':' !in NormHex(a)
    ensures (forall w', d', k', t': i64, a' ::
               CanonicalV2(w', d', k', t', a') == CanonicalV2(w, d, k, t, a) && ':' !in NormHex(a') ==>
               Normal(w', d', k', t') == Normal(w, d, k, t) && NormHex(a') == NormHex(a))
      <==> !Movable(Normal(w, d, k, t))
  {
    var f := Normal(w, d, k, t);
    NormalIsNormal(w, d, k, t);
    if Movable(f) {
      var g := MovedReading(f);
      NormalArises(g);
      SameJoined("myso-mls-device-v2:", f, g);
      assert CanonicalV2(g.wallet, g.deviceId, RawKey(g.mlsKey), g.issuedAtMs, a) == CanonicalV2(w, d, k, t, a);
    } else {
      forall w', d', k', t': i64, a' | CanonicalV2(w', d', k', t', a') == CanonicalV2(w, d, k, t, a) && ':' !in NormHex(a')
        ensures Normal(w', d', k', t') == f && NormHex(a') == NormHex(a)
      {
        V2Fixed(w, d, k, t, a, w', d', k', t', a');
      }
    }
  }

  lemma V2Fixed(w: string, d: string, k: string, t: i64, a: string,
                w': string, d': string, k': string, t': i64, a': string)
    requires ':' !in NormHex(a) && ':' !in NormHex(a') && !Movable(Normal(w, d, k, t))
    requires CanonicalV2(w', d', k', t', a') == CanonicalV2(w, d, k, t, a)
    ensures Normal(w', d', k', t') == Normal(w, d, k, t) && NormHex(a') == NormHex(a)
  {
    var p := "myso-mls-device-v2:";
    var f, g := Normal(w, d, k, t), Normal(w', d', k', t');
    NormalIsNormal(w, d, k, t);
    NormalIsNormal(w', d', k', t');
    LastColon(Joined(p, f), NormHex(a), Joined(p, g), NormHex(a'));
    SameJoined(p, f, g);
    FixedReading(f, g);
  }

  // ------------------------------------------------- v2 strings with any authority key text

  /** Everything behind the version tag. */
  function Full(f: Fields, a: string): string {
    Middle(f) + ":" + (Decimal(f.issuedAtMs) + ":" + a)
  }

  /** A number within the authority key can be read as the time; what stands before it then ends the key. */
  predicate AuthorityMoves(a: string) {
    exists i, j :: 0 <= i <= j < |a| && NumeralAt(a, i, j)
  }

  predicate NumeralAt(a: string, i: nat, j: nat)
    requires i <= j < |a|
  {
    a[j] == ':' && IsNumeral(a[i..j]) && (i == 0 || (a[i - 1] == ':' && EndsClean(a[..i - 1])))
  }

  /** The text splits at two of its colons into the normal form of a wallet, a device id and a key. */
  ghost predicate Splits(s: string) {
    exists i, j :: 0 <= i < j < |s| && s[i] == ':' && s[j] == ':'
      && IsNormal(Fields(s[..i], s[i + 1..j], s[j + 1..], 0))
  }

  /** A number within the first three fields can be read as the time: what stands before it splits into three
      fields, and what stands behind it is lower case, as the authority key is. */
  ghost predicate MiddleMoves(s: string) {
    exists p, q :: 0 <= p < q <= |s| && TimeAt(s, p, q)
  }

  ghost predicate TimeAt(s: string, p: nat, q: nat)
    requires p < q <= |s|
  {
    && s[p] == ':' && Splits(s[..p])
    && IsNumeral(s[p + 1..q]) && (q == |s| || (s[q] == ':' && IsLower(s[q + 1..])))
  }

  /** Some colon can be read in another role. A caller can decide this from the fields. */
  ghost predicate MovableV2(f: Fields, a: string) {
    Movable(f) || AuthorityMoves(a) || MiddleMoves(Middle(f))
  }

  ghost predicate IsNormalKey(a: string) {
    IsLower(a) && EndsClean(a)
  }

  /** A text without a colon is no longer than the front of another reading. */
  lemma PlainFront(n: string, b: string, v: string, rest: string)
    requires n + ":" + b == v + ":" + rest && ':' !in n
    ensures |n| <= |v|
  {
    if |n| > |v| {
      ShorterFront(n, b, v, rest);
    }
  }

  lemma MiddleEndsClean(g: Fields)
    requires IsNormal(g)
    ensures EndsClean(Middle(g))
  {
    EndsLikeTail(g.deviceId, g.mlsKey);
    EndsLikeTail(g.wallet, g.deviceId + ":" + g.mlsKey);
  }

  lemma MiddleSplits(g: Fields)
    requires IsNormal(g)
    ensures Splits(Middle(g))
  {
    var s, i, j := Middle(g), |g.wallet|, |g.wallet| + 1 + |g.deviceId|;
    assert s[..i] == g.wallet && s[i + 1..j] == g.deviceId && s[j + 1..] == g.mlsKey;
    assert s[i] == ':' && s[j] == ':';
    assert IsNormal(Fields(s[..i], s[i + 1..j], s[j + 1..], 0));
  }

  /** Another reading whose first three fields are shorter. */
  lemma ReadTimeInMiddle(f: Fields, a: string, g: Fields, b: string)
    requires IsNormal(g) && IsLower(b) && Full(f, a) == Full(g, b) && |Middle(g)| < |Middle(f)|
    ensures MiddleMoves(Middle(f))
  {
    MiddleSplits(g);
    DecimalHasNoColon(g.issuedAtMs);
    DecimalIsNumeral(g.issuedAtMs);
    ShorterSplit(Middle(f), Decimal(f.issuedAtMs) + ":" + a, Middle(g), Decimal(g.issuedAtMs), b);
  }

  lemma ShorterSplit(s: string, rest: string, s': string, n: string, b: string)
    requires s + ":" + rest == s' + ":" + (n + ":" + b) && |s'| < |s|
    requires Splits(s') && IsNumeral(n) && ':' !in n && IsLower(b)
    ensures MiddleMoves(s)
  {
    ShorterFront(s, rest, s', n + ":" + b);
    TimeInside(s, |s'|, n, b, rest);
  }

  lemma TimeInside(s: string, p: nat, n: string, b: string, rest: string)
    requires p < |s| && s[p] == ':' && Splits(s[..p])
    requires n + ":" + b == s[p + 1..] + ":" + rest && IsNumeral(n) && ':' !in n && IsLower(b)
    ensures MiddleMoves(s)
  {
    var v := s[p + 1..];
    PlainFront(n, b, v, rest);
    if |n| == |v| {
      SameFront(n, b, v, rest);
      assert s[p + 1..|s|] == n;
      assert TimeAt(s, p, |s|);
    } else {
      ShorterFront(v, rest, n, b);
      var x := v[|n| + 1..];
      LowerPart(b, 0, |x|);
      assert b[0..|x|] == x;
      AtColon(v, |n|);
      InsideOf(s, p, n, x);
      assert TimeAt(s, p, p + 1 + |n|);
    }
  }

  lemma InsideOf(s: string, p: nat, n: string, x: string)
    requires p < |s| && s[p + 1..] == n + ":" + x
    ensures var q := p + 1 + |n|;
      q < |s| && s[p + 1..q] == n && s[q] == ':' && s[q + 1..] == x
  {
    var v, q := s[p + 1..], p + 1 + |n|;
    assert v[..|n|] == n && v[|n|] == ':' && v[|n| + 1..] == x;
    assert s[p + 1..q] == v[..|n|] && s[q] == v[|n|] && s[q + 1..] == v[|n| + 1..];
  }

  /** Another reading whose first three fields are longer. */
  lemma ReadTimeInAuthority(f: Fields, a: string, g: Fields, b: string)
    requires IsNormal(g) && Full(f, a) == Full(g, b) && |Middle(g)| > |Middle(f)|
    ensures AuthorityMoves(a)
  {
    MiddleEndsClean(g);
    DecimalHasNoColon(f.issuedAtMs);
    DecimalIsNumeral(g.issuedAtMs);
    LongerSplit(Middle(f), Decimal(f.issuedAtMs), a, Middle(g), Decimal(g.issuedAtMs), b);
  }

  lemma LongerSplit(s: string, n: string, a: string, s': string, n': string, b: string)
    requires s + ":" + (n + ":" + a) == s' + ":" + (n' + ":" + b) && |s'| > |s|
    requires ':' !in n && IsNumeral(n') && EndsClean(s')
    ensures AuthorityMoves(a)
  {
    ShorterFront(s', n' + ":" + b, s, n + ":" + a);
    var u := s'[|s| + 1..];
    assert u != "" ==> u[|u| - 1] == s'[|s'| - 1];
    PlainFront(n, a, u, n' + ":" + b);
    if |n| == |u| {
      SameFront(n, a, u, n' + ":" + b);
      assert a[0..|n'|] == n' && a[|n'|] == ':';
      assert NumeralAt(a, 0, |n'|);
    } else {
      ShorterFront(u, n' + ":" + b, n, a);
      var x := u[|n| + 1..];
      assert x != "" ==> x[|x| - 1] == u[|u| - 1];
      NumeralBehind(a, x, n', b);
      assert NumeralAt(a, |x| + 1, |x| + 1 + |n'|);
    }
  }

  lemma NumeralBehind(a: string, x: string, n: string, b: string)
    requires a == x + ":" + (n + ":" + b)
    ensures var i := |x| + 1;
      var j := i + |n|;
      j < |a| && a[j] == ':' && a[i..j] == n && a[i - 1] == ':' && a[..i - 1] == x
  {
  }

  /** Two readings with the same first three fields have the same time and authority key. */
  lemma SameRest(f: Fields, a: string, g: Fields, b: string)
    requires Full(f, a) == Full(g, b) && |Middle(f)| == |Middle(g)|
    ensures Middle(f) == Middle(g) && f.issuedAtMs == g.issuedAtMs && a == b
  {
    var n, n' := Decimal(f.issuedAtMs), Decimal(g.issuedAtMs);
    SameFront(Middle(f), n + ":" + a, Middle(g), n' + ":" + b);
    DecimalHasNoColon(f.issuedAtMs);
    DecimalHasNoColon(g.issuedAtMs);
    PlainFront(n, a, n', b);
    PlainFront(n', b, n, a);
    SameFront(n, a, n', b);
    DecimalInjective(f.issuedAtMs, g.issuedAtMs);
  }

  lemma FixedReadingV2(f: Fields, a: string, g: Fields, b: string)
    requires IsNormal(f) && IsNormal(g) && IsNormalKey(a) && IsNormalKey(b) && Full(f, a) == Full(g, b)
    requires !MovableV2(f, a)
    ensures f == g && a == b
  {
    assert |Middle(g)| >= |Middle(f)| by {
      if |Middle(g)| < |Middle(f)| {
        ReadTimeInMiddle(f, a, g, b);
      }
    }
    assert |Middle(g)| <= |Middle(f)| by {
      if |Middle(g)| > |Middle(f)| {
        ReadTimeInAuthority(f, a, g, b);
      }
    }
    SameRest(f, a, g, b);
    FixedReading(f, g);
  }

  /** The other reading, when a colon moves. */
  lemma MovedReadingV2(f: Fields, a: string) returns (g: Fields, b: string)
    requires IsNormal(f) && IsNormalKey(a) && MovableV2(f, a)
    ensures IsNormal(g) && IsNormalKey(b) && (g != f || b != a) && Full(g, b) == Full(f, a)
  {
    if Movable(f) {
      g := MovedReading(f);
      b := a;
    } else if AuthorityMoves(a) {
      var i, j :| 0 <= i <= j < |a| && NumeralAt(a, i, j);
      g, b := MoveFromAuthority(f, a, i, j);
    } else {
      g, b := MoveIntoAuthority(f, a);
    }
  }

  lemma MoveFromAuthority(f: Fields, a: string, i: nat, j: nat) returns (g: Fields, b: string)
    requires IsNormal(f) && IsNormalKey(a)
    requires i <= j < |a| && NumeralAt(a, i, j)
    ensures IsNormal(g) && IsNormalKey(b) && b != a && Full(g, b) == Full(f, a)
  {
    var n := Decimal(f.issuedAtMs);
    DecimalIsPlain(f.issuedAtMs);
    NumeralDecimal(a[i..j]);
    b := a[j + 1..];
    LowerPart(a, j + 1, |a|);
    assert a[j + 1..|a|] == b;
    assert b != "" ==> b[|b| - 1] == a[|a| - 1];
    var front := FrontOfNumeral(a, i, j, n);
    g := AppendToKey(f, front, Numeral(a[i..j]));
    Regroup(Middle(f), front, a[i..j] + ":" + b);
  }

  lemma AppendToKey(f: Fields, front: string, t: i64) returns (g: Fields)
    requires IsNormal(f) && IsLower(front) && EndsClean(front)
    ensures IsNormal(g) && Middle(g) == Middle(f) + ":" + front && g.issuedAtMs == t
  {
    g := Fields(f.wallet, f.deviceId, f.mlsKey + ":" + front, t);
    EndsLikeTail(f.mlsKey, front);
    Regroup(f.deviceId, f.mlsKey, front);
    Regroup(f.wallet, f.deviceId + ":" + f.mlsKey, front);
  }

  /** What stands before the number, behind the time that the string was made with. */
  lemma FrontOfNumeral(a: string, i: nat, j: nat, n: string) returns (front: string)
    requires IsLower(a) && i <= j < |a| && a[j] == ':'
    requires i == 0 || (a[i - 1] == ':' && EndsClean(a[..i - 1]))
    requires IsLower(n) && EndsClean(n)
    ensures IsLower(front) && EndsClean(front)
    ensures front + ":" + (a[i..j] + ":" + a[j + 1..]) == n + ":" + a
  {
    var tail := a[i..j] + ":" + a[j + 1..];
    assert a[i..] == tail;
    front := n;
    if i > 0 {
      var x := a[..i - 1];
      LowerPart(a, 0, i - 1);
      assert a[0..i - 1] == x;
      EndsLikeTail(n, x);
      front := n + ":" + x;
      AtColon(a, i - 1);
      Regroup(n, x, tail);
    } else {
      assert a == tail;
    }
  }

  lemma MoveIntoAuthority(f: Fields, a: string) returns (g: Fields, b: string)
    requires IsNormal(f) && IsNormalKey(a) && MiddleMoves(Middle(f))
    ensures IsNormal(g) && IsNormalKey(b) && b != a && Full(g, b) == Full(f, a)
  {
    var s, n := Middle(f), Decimal(f.issuedAtMs);
    var p, q :| 0 <= p < q <= |s| && TimeAt(s, p, q);
    g := SplitFields(s[..p], Numeral(s[p + 1..q]));
    NumeralDecimal(s[p + 1..q]);
    DecimalIsPlain(f.issuedAtMs);
    b := BehindNumeral(s, p, q, n, a);
    AtColon(s, p);
    Regroup(s[..p], s[p + 1..], n + ":" + a);
  }

  /** What stands behind the number, up to the end of the string. */
  lemma BehindNumeral(s: string, p: nat, q: nat, n: string, a: string) returns (b: string)
    requires p < q <= |s| && (q == |s| || (s[q] == ':' && IsLower(s[q + 1..])))
    requires IsLower(n) && IsNormalKey(a)
    ensures IsNormalKey(b) && |b| > |a|
    ensures s[p + 1..q] + ":" + b == s[p + 1..] + ":" + (n + ":" + a)
  {
    EndsLikeTail(n, a);
    b := n + ":" + a;
    if q < |s| {
      var x := s[q + 1..];
      EndsLikeTail(x, n + ":" + a);
      b := x + ":" + (n + ":" + a);
      assert s[p + 1..] == s[p + 1..q] + ":" + x;
      Regroup(s[p + 1..q], x, n + ":" + a);
    } else {
      assert s[p + 1..] == s[p + 1..q];
    }
  }

  lemma SplitFields(s: string, t: i64) returns (g: Fields)
    requires Splits(s)
    ensures IsNormal(g) && Middle(g) == s && g.issuedAtMs == t
  {
    var i, j :| 0 <= i < j < |s| && s[i] == ':' && s[j] == ':'
      && IsNormal(Fields(s[..i], s[i + 1..j], s[j + 1..], 0));
    g := Fields(s[..i], s[i + 1..j], s[j + 1..], t);
    ThreeParts(s, i, j);
  }

  lemma ThreeParts(s: string, i: nat, j: nat)
    requires i < j < |s| && s[i] == ':' && s[j] == ':'
    ensures s == s[..i] + ":" + (s[i + 1..j] + ":" + s[j + 1..])
  {
    AtColon(s, i);
    assert s[i + 1..] == s[i + 1..j] + ":" + s[j + 1..];
  }

  lemma V2IsFull(w: string, d: string, k: string, t: i64, a: string)
    ensures CanonicalV2(w, d, k, t, a) == "myso-mls-device-v2:" + Full(Normal(w, d, k, t), NormHex(a))
  {
    var f, prefix := Normal(w, d, k, t), "myso-mls-device-v2:";
    JoinedIsMiddle(prefix, f);
    Regroup(prefix + Middle(f), Decimal(t), NormHex(a));
    assert prefix + Middle(f) + ":" + (Decimal(t) + ":" + NormHex(a)) == prefix + Full(f, NormHex(a));
  }

  lemma SameV2(w: string, d: string, k: string, t: i64, a: string,
               w': string, d': string, k': string, t': i64, a': string)
    ensures CanonicalV2(w, d, k, t, a) == CanonicalV2(w', d', k', t', a')
      <==> Full(Normal(w, d, k, t), NormHex(a)) == Full(Normal(w', d', k', t'), NormHex(a'))
  {
    var prefix := "myso-mls-device-v2:";
    V2IsFull(w, d, k, t, a);
    V2IsFull(w', d', k', t', a');
    var x, y := Full(Normal(w, d, k, t), NormHex(a)), Full(Normal(w', d', k', t'), NormHex(a'));
    assert x == (prefix + x)[|prefix|..] && y == (prefix + y)[|prefix|..];
  }

  lemma NormHexIsNormalKey(a: string)
    ensures IsNormalKey(NormHex(a))
  {
    NormalIsNormal("", "", a, 0);
  }

  /** Exactly when a v2 string determines every field, the authority key included, among all texts. */
  lemma CanonicalV2BindsExactly(w: string, d: string, k: string, t: i64, a: string)
    ensures (forall w', d', k', t': i64, a' :: CanonicalV2(w', d', k', t', a') == CanonicalV2(w, d, k, t, a) ==>
               Normal(w', d', k', t') == Normal(w, d, k, t) && NormHex(a') == NormHex(a))
      <==> !MovableV2(Normal(w, d, k, t), NormHex(a))
  {
    var f := Normal(w, d, k, t);
    NormalIsNormal(w, d, k, t);
    NormHexIsNormalKey(a);
    if MovableV2(f, NormHex(a)) {
      var g, b := MovedReadingV2(f, NormHex(a));
      NormalArises(g);
      RawKeyNormalises(b);
      SameV2(w, d, k, t, a, g.wallet, g.deviceId, RawKey(g.mlsKey), g.issuedAtMs, RawKey(b));
      assert CanonicalV2(g.wallet, g.deviceId, RawKey(g.mlsKey), g.issuedAtMs, RawKey(b)) == CanonicalV2(w, d, k, t, a);
    } else {
      forall w', d', k', t': i64, a' | CanonicalV2(w', d', k', t', a') == CanonicalV2(w, d, k, t, a)
        ensures Normal(w', d', k', t') == f && NormHex(a') == NormHex(a)
      {
        NormalIsNormal(w', d', k', t');
        NormHexIsNormalKey(a');
        SameV2(w, d, k, t, a, w', d', k', t', a');
        FixedReadingV2(f, NormHex(a), Normal(w', d', k', t'), NormHex(a'));
      }
    }
  }

  /** Fields without any colon are always bound, in both versions. */
  lemma ColonFreeIsFixed(w: string, d: string, k: string, t: i64, a: string)
    requires ':' !in w && ':' !in d && ':' !in k && ':' !in a
    ensures !Movable(Normal(w, d, k, t)) && !MovableV2(Normal(w, d, k, t), NormHex(a))
  {
    NormalHasNoColon(w, d, k);
    ColonStays(a);
    TwoColonsDoNotMove(Normal(w, d, k, t));
  }

  lemma TwoColonsDoNotMove(f: Fields)
    requires ':' !in f.wallet && ':' !in f.deviceId && ':' !in f.mlsKey
    ensures !MiddleMoves(Middle(f))
  {
    var s := Middle(f);
    var first, second := |f.wallet|, |f.wallet| + 1 + |f.deviceId|;
    assert forall i :: 0 <= i < first ==> s[i] == f.wallet[i];
    assert forall i :: first < i < second ==> s[i] == f.deviceId[i - first - 1];
    assert forall i :: second < i < |s| ==> s[i] == f.mlsKey[i - second - 1];
    assert forall i :: 0 <= i < |s| && s[i] == ':' ==> i == first || i == second;
    forall p | 0 <= p < |s| && s[p] == ':' ensures !Splits(s[..p]) {
      OneColonSplitsNot(s[..p], first);
    }
  }

  lemma OneColonSplitsNot(s: string, first: int)
    requires forall i :: 0 <= i < |s| && s[i] == ':' ==> i == first
    ensures !Splits(s)
  {
  }

  /** A pair of readings: a colon moves between the wallet and the device id. */
  lemma ColonMoves()
    ensures Canonical("a", "b:c", "d", 0) == Canonical("a:b", "c", "d", 0)
    ensures Normal("a", "b:c", "d", 0) != Normal("a:b", "c", "d", 0)
  {
    TrimFixed("a"); TrimFixed("b:c"); TrimFixed("d"); TrimFixed("a:b"); TrimFixed("c");
    assert Lower("a") == "a" && Lower("a:b") == "a:b";
    assert "myso-mls-device-v1:" + "a" + ":" + "b:c" == "myso-mls-device-v1:" + "a:b" + ":" + "c";
    assert "b:c" != "c";
  }

  /** A certificate that carries a genuine signature and verifies has the fields that were signed:
      no field can be altered and no signature moved to another certificate. */
  lemma SignatureBindsFields(authority: Authority, verify: Verifier, w: string, d: string, k: string, t: i64,
                             c: DeviceCertificate)
    requires IssueV2(authority, w, d, k, t).Some? && VerifyAuthoritySignature(verify, c)
    requires BindsTo(authority, verify, CanonicalV2(w, d, k, t, Hex.Encode(authority.publicKey)), SignedCanonical(c))
    requires Hex.Decode(NormHex(c.authorityKey.value)) == Some(authority.publicKey)
    requires var issued := IssueV2(authority, w, d, k, t).value;
      Hex.Decode(NormHex(c.sig)) == Hex.Decode(NormHex(issued.sig))
    requires !Movable(Normal(w, d, k, t))
    ensures Normal(c.wallet, c.deviceId, c.mlsKey, c.issuedAtMs) == Normal(w, d, k, t)
  {
    var key := Hex.Encode(authority.publicKey);
    var sig := authority.sign(CanonicalV2(w, d, k, t, key)).value;
    Hex.RoundTrip(sig);
    LowerHexFixed(Hex.Encode(sig));
    assert SignedCanonical(c) == CanonicalV2(w, d, k, t, key);
    Hex.RoundTrip(authority.publicKey);
    LowerHexFixed(key);
    Hex.DecodedIsHex(NormHex(c.authorityKey.value));
    V2Fixed(w, d, k, t, key, c.wallet, c.deviceId, c.mlsKey, c.issuedAtMs, c.authorityKey.value);
  }

  /** A signature binds the version: no inputs at all make a v1 and a v2 string coincide. */
  lemma VersionsDisjoint(w: string, d: string, k: string, t: i64,
                         w': string, d': string, k': string, t': i64, a': string)
    ensures Canonical(w, d, k, t) != CanonicalV2(w', d', k', t', a')
  {
    var v1, v2 := "myso-mls-device-v1:", "myso-mls-device-v2:";
    JoinedIsMiddle(v1, Normal(w, d, k, t));
    V2IsFull(w', d', k', t', a');
    PrefixStays(v1, Middle(Normal(w, d, k, t)) + ":" + Decimal(t));
    PrefixStays(v2, Full(Normal(w', d', k', t'), NormHex(a')));
    assert v1 + Middle(Normal(w, d, k, t)) + ":" + Decimal(t) == v1 + (Middle(Normal(w, d, k, t)) + ":" + Decimal(t));
  }

  lemma PrefixStays(prefix: string, rest: string)
    requires |prefix| > 17
    ensures (prefix + rest)[17] == prefix[17]
  {
  }
}
