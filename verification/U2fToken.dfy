/** The encrypted counter file, its two versions, and the crypto the token relies on. */
module U2fFiles {
  import opened U2fDer

  type uint32 = x: int | 0 <= x < 0x1_0000_0000

  const COUNTER_FILE_TYPE := "Flipper U2F Counter File"
  const COUNTER_VERSION := 2
  const COUNTER_VERSION_OLD := 1
  const COUNTER_CONTROL_VAL: uint32 := 0xAA5500FF

  datatype CounterData = CounterData(counter: uint32, salt: seq<byte>, control: uint32)

  type Hash = h: seq<byte> | |h| == 32 witness seq(32, _ => 0)
  type PublicKey = k: seq<byte> | |k| == 65 witness seq(65, _ => 0)

  /** r and s, 32 bytes each, neither of them zero. */
  predicate SignatureShape(sig: seq<byte>) {
    |sig| == 64 && NonZero(sig[..32]) && NonZero(sig[32..])
  }

  function SampleSignature(): (sig: seq<byte>)
    ensures SignatureShape(sig)
  {
    var sig: seq<byte> := seq(64, _ => 1);
    assert sig[..32][0] != 0 && sig[32..][0] != 0;
    sig
  }

  type Signature = sig: seq<byte> | SignatureShape(sig) witness SampleSignature()

  /** Uninterpreted cryptography: encryption under the device's enclave key, HMAC-SHA-256, SHA-256, the
      public key of a private one, and ECDSA signing with its randomness made explicit. */
  datatype Crypto = Crypto(
    encrypt: (seq<byte>, CounterData) -> seq<byte>,
    decrypt: (seq<byte>, seq<byte>) -> CounterData,
    hmac: (seq<byte>, seq<byte>) -> Hash,
    sha: seq<byte> -> Hash,
    publicKey: seq<byte> -> PublicKey,
    sign: (seq<byte>, seq<byte>, seq<byte>) -> Signature)

  /** Decryption undoes encryption. */
  ghost predicate Sound(c: Crypto) {
    forall iv: seq<byte>, d: CounterData :: c.decrypt(iv, c.encrypt(iv, d)) == d
  }

  datatype CounterFile = CounterFile(fileType: string, version: nat, iv: seq<byte>, data: seq<byte>)

  /** Byte order reversed. */
  function Rev(x: uint32): uint32 {
    (x % 256) * 0x100_0000 + (x / 256 % 256) * 0x1_0000 + (x / 0x1_0000 % 256) * 256 + x / 0x100_0000
  }

  /** The four bytes of a big-endian field. */
  function BigEndian4(x: uint32): (b: seq<byte>)
    ensures |b| == 4
  {
    [x / 0x100_0000, x / 0x1_0000 % 256, x / 256 % 256, x % 256]
  }

  lemma RevOfBytes(b0: byte, b1: byte, b2: byte, b3: byte)
    ensures 0 <= b0 + 256 * b1 + 0x1_0000 * b2 + 0x100_0000 * b3 < 0x1_0000_0000
    ensures Rev(b0 + 256 * b1 + 0x1_0000 * b2 + 0x100_0000 * b3) == b3 + 256 * b2 + 0x1_0000 * b1 + 0x100_0000 * b0
  {
    var x := b0 + 256 * b1 + 0x1_0000 * b2 + 0x100_0000 * b3;
    assert x / 256 == b1 + 256 * b2 + 0x1_0000 * b3;
    assert x / 0x1_0000 == b2 + 256 * b3;
    assert x / 0x100_0000 == b3;
    assert x % 256 == b0 && x / 256 % 256 == b1 && x / 0x1_0000 % 256 == b2;
  }

  lemma BytesOf(x: uint32) returns (b0: byte, b1: byte, b2: byte, b3: byte)
    ensures x == b0 + 256 * b1 + 0x1_0000 * b2 + 0x100_0000 * b3
  {
    b0, b1, b2, b3 := x % 256, x / 256 % 256, x / 0x1_0000 % 256, x / 0x100_0000;
    assert x / 0x1_0000 == x / 256 / 256 && x / 0x100_0000 == x / 0x1_0000 / 256;
  }

  /** A second swap would undo the first. */
  lemma RevInvolution(x: uint32)
    ensures Rev(Rev(x)) == x
  {
    var b0, b1, b2, b3 := BytesOf(x);
    RevOfBytes(b0, b1, b2, b3);
    RevOfBytes(b3, b2, b1, b0);
  }

  lemma BigEndian4Value(x: uint32)
    ensures BigEndian(BigEndian4(x)) == x
  {
    var b0, b1, b2, b3 := BytesOf(x);
    var v := BigEndian4(x);
    assert v[..1] == [v[0]] && v[..2] == [v[0], v[1]] && v[..3] == [v[0], v[1], v[2]];
    assert v[..1][..0] == [] && v[..2][..1] == v[..1] && v[..3][..2] == v[..2];
    assert BigEndian(v[..1]) == v[0];
    assert BigEndian(v[..2]) == BigEndian(v[..1]) * 256 + v[1];
    assert BigEndian(v[..3]) == BigEndian(v[..2]) * 256 + v[2];
    assert x / 0x1_0000 == x / 256 / 256 && x / 0x100_0000 == x / 0x1_0000 / 256;
  }

  /** The counter a file stands for, whatever its version: the old one keeps it byte-swapped. */
  ghost function Stored(c: Crypto, f: Option<CounterFile>): Option<uint32> {
    if f == None || f.value.fileType != COUNTER_FILE_TYPE then None
    else
      var d := c.decrypt(f.value.iv, f.value.data);
      if d.control != COUNTER_CONTROL_VAL then None
      else if f.value.version == COUNTER_VERSION then Some(d.counter)
      else if f.value.version == COUNTER_VERSION_OLD then Some(Rev(d.counter))
      else None
  }

  function NewFile(c: Crypto, v: uint32, iv: seq<byte>, salt: seq<byte>): CounterFile {
    CounterFile(COUNTER_FILE_TYPE, COUNTER_VERSION, iv, c.encrypt(iv, CounterData(v, salt, COUNTER_CONTROL_VAL)))
  }

  /** The outcomes of the calls behind a write and a read of the counter file. */
  datatype WriteIo = WriteIo(key: bool, cipher: bool, file: bool) {
    predicate Works() {
      key && cipher && file
    }
  }

  datatype ReadIo = ReadIo(open: bool, header: bool, contents: bool, rewrite: WriteIo)

  /** What reading a file gives: the counter it stands for, unless a call fails. A file of the old
      version has to be rewritten as well. */
  ghost function ReadValue(c: Crypto, f: Option<CounterFile>, io: ReadIo): Option<uint32> {
    if f.Some? && io.open && io.header && io.contents && (f.value.version == COUNTER_VERSION_OLD ==> io.rewrite.Works())
    then Stored(c, f) else None
  }

  ghost function FileAfterRead(c: Crypto, f: Option<CounterFile>, io: ReadIo, iv: seq<byte>, salt: seq<byte>)
    : Option<CounterFile>
  {
    match ReadValue(c, f, io)
    case None => f
    case Some(v) => if f.value.version == COUNTER_VERSION_OLD then Some(NewFile(c, v, iv, salt)) else f
  }

  lemma NewFileStands(c: Crypto, v: uint32, iv: seq<byte>, salt: seq<byte>)
    requires Sound(c)
    ensures Stored(c, Some(NewFile(c, v, iv, salt))) == Some(v)
  {
  }

  /** What the version before this one left behind: a record whose counter field has, in the memory of this
      little-endian machine, the counter's bytes from the highest down. */
  predicate WrittenByOldVersion(c: Crypto, f: CounterFile, b3: byte, b2: byte, b1: byte, b0: byte) {
    var d := c.decrypt(f.iv, f.data);
    && f.fileType == "Flipper U2F Counter File" && f.version == 1 && d.control == 0xAA5500FF
    && d.counter == b3 + 0x100 * b2 + 0x1_0000 * b1 + 0x100_0000 * b0
  }

  /** Such a file is read as the counter it was written for, and is left as a file of the new version with
      that counter in its field; every later read in which no call fails gives the same and leaves it. */
  lemma OldFileIsMigrated(c: Crypto, f: CounterFile, b3: byte, b2: byte, b1: byte, b0: byte, iv: seq<byte>,
                          salt: seq<byte>)
    requires Sound(c) && WrittenByOldVersion(c, f, b3, b2, b1, b0)
    ensures var v, works := 0x100_0000 * b3 + 0x1_0000 * b2 + 0x100 * b1 + b0,
                            ReadIo(true, true, true, WriteIo(true, true, true));
      && Stored(c, Some(f)) == Some(v) && ReadValue(c, Some(f), works) == Some(v)
      && var f' := FileAfterRead(c, Some(f), works, iv, salt);
      && f'.Some? && f'.value.fileType == "Flipper U2F Counter File" && f'.value.version == 2
      && c.decrypt(f'.value.iv, f'.value.data) == CounterData(v, salt, 0xAA5500FF)
      && forall io: ReadIo :: io.open && io.header && io.contents ==>
           ReadValue(c, f', io) == Some(v) && FileAfterRead(c, f', io, iv, salt) == f'
  {
    RevOfBytes(b3, b2, b1, b0);
  }

  /** Which files are read: those of this type with the control value, in one of the two versions. */
  lemma ReadableExactlyWhen(c: Crypto, f: CounterFile, io: ReadIo)
    ensures ReadValue(c, Some(f), io).Some? <==>
      && io.open && io.header && io.contents && f.fileType == "Flipper U2F Counter File"
      && c.decrypt(f.iv, f.data).control == 0xAA5500FF
      && (f.version == 2 || (f.version == 1 && io.rewrite.key && io.rewrite.cipher && io.rewrite.file))
    ensures ReadValue(c, Some(f), io).Some? && f.version == 2 ==>
      ReadValue(c, Some(f), io) == Some(c.decrypt(f.iv, f.data).counter)
  {
    assert COUNTER_FILE_TYPE == "Flipper U2F Counter File";
  }

  /** What is written is such a file of the new version with the counter in its field. */
  lemma WrittenByThisVersion(c: Crypto, v: uint32, iv: seq<byte>, salt: seq<byte>)
    requires Sound(c)
    ensures var f := NewFile(c, v, iv, salt);
      && f.fileType == "Flipper U2F Counter File" && f.version == 2
      && c.decrypt(f.iv, f.data) == CounterData(v, salt, 0xAA5500FF)
  {
    assert NewFile(c, v, iv, salt).iv == iv;
  }

  lemma ReadKeepsMeaning(c: Crypto, f: Option<CounterFile>, io: ReadIo, iv: seq<byte>, salt: seq<byte>)
    requires Sound(c)
    ensures Stored(c, FileAfterRead(c, f, io, iv, salt)) == Stored(c, f)
    ensures ReadValue(c, f, io).Some? ==> FileAfterRead(c, f, io, iv, salt).value.version == COUNTER_VERSION
  {
  }

  /** Storage and enclave. */
  class CounterStore {
    var file: Option<CounterFile>
    const crypto: Crypto

    constructor (file: Option<CounterFile>, crypto: Crypto)
      ensures this.file == file && this.crypto == crypto
    {
      this.file := file;
      this.crypto := crypto;
    }

    /** Replaces the file or leaves it alone. */
    method CntWrite(v: uint32, iv: seq<byte>, salt: seq<byte>, io: WriteIo) returns (ok: bool)
      requires Sound(crypto)
      modifies this
      ensures ok == io.Works()
      ensures file == if ok then Some(NewFile(crypto, v, iv, salt)) else old(file)
      ensures ok ==> Stored(crypto, file) == Some(v)
    {
      var cnt := CounterData(v, salt, COUNTER_CONTROL_VAL);
      if !io.key {
        return false;
      }
      var encrypted := crypto.encrypt(iv, cnt);
      if !io.cipher {
        return false;
      }
      ok := io.file;
      if ok {
        file := Some(CounterFile(COUNTER_FILE_TYPE, COUNTER_VERSION, iv, encrypted));
      }
    }

    /** Reads the counter. A file of the old version is rewritten in the new one. */
    method CntRead(iv: seq<byte>, salt: seq<byte>, io: ReadIo) returns (ok: bool, v: uint32)
      requires Sound(crypto)
      modifies this
      ensures match ReadValue(crypto, old(file), io)
        case Some(x) => ok && v == x
        case None => !ok
      ensures file == FileAfterRead(crypto, old(file), io, iv, salt)
    {
      var oldCounter := false;
      v := 0;
      if file == None || !io.open {
        return false, v;
      }
      var f := file.value;
      if !io.header || f.fileType != COUNTER_FILE_TYPE {
        return false, v;
      }
      if f.version == COUNTER_VERSION_OLD {
        oldCounter := true;
      } else if f.version != COUNTER_VERSION {
        return false, v;
      }
      if !io.contents {
        return false, v;
      }
      var cnt := crypto.decrypt(f.iv, f.data);
      ok := false;
      if cnt.control == COUNTER_CONTROL_VAL {
        v := cnt.counter;
        ok := true;
      }
      if oldCounter && ok {
        v := Rev(cnt.counter);
        ok := CntWrite(v, iv, salt, io.rewrite);
      }
    }

    /** However often the file is read, every read in which no call fails gives the counter it stood for
        at first, and no read gives another: an old file is swapped once. */
    method ReadRepeatedly(ios: seq<ReadIo>, iv: seq<byte>, salt: seq<byte>) returns (values: seq<Option<uint32>>)
      requires Sound(crypto)
      modifies this
      ensures |values| == |ios|
      ensures forall k :: 0 <= k < |ios| ==>
        && (values[k].Some? ==> values[k] == Stored(crypto, old(file)))
        && (ios[k].open && ios[k].header && ios[k].contents && ios[k].rewrite.Works() ==>
              values[k] == Stored(crypto, old(file)))
      ensures Stored(crypto, file) == Stored(crypto, old(file))
    {
      values := [];
      var k := 0;
      while k < |ios|
        invariant 0 <= k <= |ios| && |values| == k
        invariant forall j :: 0 <= j < k ==>
          && (values[j].Some? ==> values[j] == Stored(crypto, old(file)))
          && (ios[j].open && ios[j].header && ios[j].contents && ios[j].rewrite.Works() ==>
                values[j] == Stored(crypto, old(file)))
        invariant Stored(crypto, file) == Stored(crypto, old(file))
      {
        ReadKeepsMeaning(crypto, file, ios[k], iv, salt);
        var ok, v := CntRead(iv, salt, ios[k]);
        values := values + [if ok then Some(v) else None];
        k := k + 1;
      }
    }
  }
}

/** U2F raw messages (FIDO U2F Raw Message Formats, sections 4 and 5). */
module U2fMessages {
  import opened U2fDer
  import opened U2fFiles

  const BUF_LEN := 7609
  const MAX_CERT_LEN := BUF_LEN - 1 - 65 - 65 - 72 - 2

  const CMD_REGISTER: byte := 0x01
  const CMD_AUTHENTICATE: byte := 0x02
  const CMD_VERSION: byte := 0x03
  const CHECK_ONLY: byte := 0x07
  const ENFORCE: byte := 0x03
  const DONT_ENFORCE: byte := 0x08

  const NO_ERROR: seq<byte> := [0x90, 0x00]
  const NOT_SUPPORTED: seq<byte> := [0x6D, 0x00]
  const USER_MISSING: seq<byte> := [0x69, 0x85]
  const WRONG_DATA: seq<byte> := [0x6A, 0x80]
  const VERSION_STRING: seq<byte> := [0x55, 0x32, 0x46, 0x5F, 0x56, 0x32]

  /** The fields of a request in the message buffer. */
  function Mode(m: seq<byte>): byte requires |m| == BUF_LEN { m[2] }
  function Challenge(m: seq<byte>): seq<byte> requires |m| == BUF_LEN { m[7..39] }
  function AppId(m: seq<byte>): seq<byte> requires |m| == BUF_LEN { m[39..71] }
  function HandleHash(m: seq<byte>): seq<byte> requires |m| == BUF_LEN { m[72..104] }
  function HandleNonce(m: seq<byte>): seq<byte> requires |m| == BUF_LEN { m[104..136] }

  function PrivateKey(c: Crypto, deviceKey: seq<byte>, app: seq<byte>, nonce: seq<byte>): seq<byte> {
    c.hmac(deviceKey, app + nonce)
  }

  /** The part of a key handle that proves it was issued by this device for this application. */
  function HandleMac(c: Crypto, deviceKey: seq<byte>, app: seq<byte>, nonce: seq<byte>): seq<byte> {
    c.hmac(deviceKey, PrivateKey(c, deviceKey, app, nonce) + app)
  }

  function Der(sig: seq<byte>): seq<byte>
    requires |sig| == 64
  {
    DerSignature(sig[..32], sig[32..])
  }

  ghost function RegisterReply(c: Crypto, deviceKey: seq<byte>, certKey: seq<byte>, cert: seq<byte>, m: seq<byte>,
                               nonce: seq<byte>, random: seq<byte>): seq<byte>
    requires |m| == BUF_LEN
  {
    var pub := c.publicKey(PrivateKey(c, deviceKey, AppId(m), nonce));
    var mac := HandleMac(c, deviceKey, AppId(m), nonce);
    var hash := c.sha([0] + AppId(m) + Challenge(m) + mac + nonce + pub);
    var sig := c.sign(certKey, hash, random);
    [0x05] + pub + [64] + mac + nonce + (cert + Der(sig) + NO_ERROR)
  }

  ghost function AuthReply(c: Crypto, deviceKey: seq<byte>, counter: uint32, flags: byte, m: seq<byte>,
                           random: seq<byte>): seq<byte>
    requires |m| == BUF_LEN
  {
    var hash := c.sha(AppId(m) + [flags] + BigEndian4(counter) + Challenge(m));
    var sig := c.sign(PrivateKey(c, deviceKey, AppId(m), HandleNonce(m)), hash, random);
    [flags] + BigEndian4(counter) + Der(sig) + NO_ERROR
  }

  /** The handle in the request is one of ours for this application. */
  predicate KnownHandle(c: Crypto, deviceKey: seq<byte>, m: seq<byte>)
    requires |m| == BUF_LEN
  {
    HandleHash(m) == HandleMac(c, deviceKey, AppId(m), HandleNonce(m))
  }

  /** A key handle handed out at registration is accepted later for the same application, and the key
      that then signs is the one whose public half was handed out with it. */
  lemma IssuedHandleIsKnown(c: Crypto, deviceKey: seq<byte>, certKey: seq<byte>, cert: seq<byte>,
                            m: seq<byte>, nonce: seq<byte>, random: seq<byte>, reply: seq<byte>, m': seq<byte>)
    requires Sound(c) && |m| == |m'| == BUF_LEN && |nonce| == 32
    requires reply == RegisterReply(c, deviceKey, certKey, cert, m, nonce, random)
    requires |reply| >= 131 && m'[71..136] == reply[66..131] && AppId(m') == AppId(m)
    ensures KnownHandle(c, deviceKey, m')
    ensures reply[1..66] == c.publicKey(PrivateKey(c, deviceKey, AppId(m'), HandleNonce(m')))
  {
    var pub := c.publicKey(PrivateKey(c, deviceKey, AppId(m), nonce));
    var mac := HandleMac(c, deviceKey, AppId(m), nonce);
    var hash := c.sha([0] + AppId(m) + Challenge(m) + mac + nonce + pub);
    var tail := cert + Der(c.sign(certKey, hash, random)) + NO_ERROR;
    HandleCopied(pub, mac, nonce, tail, reply, m');
  }

  lemma Middle(x: seq<byte>, y: seq<byte>, z: seq<byte>)
    ensures (x + y + z)[|x|..|x| + |y|] == y
  {
  }

  lemma HandleCopied(pub: seq<byte>, mac: seq<byte>, nonce: seq<byte>, tail: seq<byte>, reply: seq<byte>, m': seq<byte>)
    requires |pub| == 65 && |mac| == |nonce| == 32 && |m'| == BUF_LEN
    requires reply == [0x05] + pub + [64] + mac + nonce + tail
    requires m'[71..136] == reply[66..131]
    ensures HandleHash(m') == mac && HandleNonce(m') == nonce && reply[1..66] == pub
  {
    assert reply == [0x05] + pub + ([64] + mac + nonce + tail);
    Middle([0x05], pub, [64] + mac + nonce + tail);
    assert reply == ([0x05] + pub + [64]) + mac + (nonce + tail);
    Middle([0x05] + pub + [64], mac, nonce + tail);
    assert reply == ([0x05] + pub + [64] + mac) + nonce + tail;
    Middle([0x05] + pub + [64] + mac, nonce, tail);
    assert m'[71..136][1..33] == m'[72..104] && m'[71..136][33..65] == m'[104..136];
    assert reply[66..131][1..33] == reply[67..99] && reply[66..131][33..65] == reply[99..131];
  }

  /** Why an authentication request is refused, if it is. */
  function Refusal(c: Crypto, deviceKey: seq<byte>, m: seq<byte>, present: bool, filesOk: bool): Option<seq<byte>>
    requires |m| == BUF_LEN
  {
    if !filesOk then Some(NOT_SUPPORTED)
    else if !present && Mode(m) == ENFORCE then Some(USER_MISSING)
    else if !KnownHandle(c, deviceKey, m) then Some(WRONG_DATA)
    else if Mode(m) == CHECK_ONLY then Some(USER_MISSING)
    else None
  }

  /** A request with a key handle that this device issued is not refused, whatever the presence, in the
      mode that does not enforce it. */
  lemma AcceptableRequest(c: Crypto, deviceKey: seq<byte>) returns (m: seq<byte>)
    ensures |m| == BUF_LEN
    ensures forall present: bool :: Refusal(c, deviceKey, m, present, true) == None
  {
    var app: seq<byte> := seq(32, _ => 0);
    var nonce: seq<byte> := seq(32, _ => 0);
    var mac := HandleMac(c, deviceKey, app, nonce);
    var front: seq<byte> := [0, CMD_AUTHENTICATE, DONT_ENFORCE, 0, 0, 0, 0] + seq(32, _ => 0);
    var rest: seq<byte> := seq(BUF_LEN - 136, _ => 0);
    m := front + app + [64] + mac + nonce + rest;
    Middle(front, app, [64] + mac + nonce + rest);
    assert m == front + app + ([64] + mac + nonce + rest);
    Middle(front + app + [64], mac, nonce + rest);
    assert m == (front + app + [64]) + mac + (nonce + rest);
    Middle(front + app + [64] + mac, nonce, rest);
    assert m[2] == DONT_ENFORCE;
  }
}

/** A device's life as a function of what happens to it and of what storage does. */
module U2fLife {
  import opened U2fDer
  import opened U2fFiles
  import opened U2fMessages

  datatype Keys = Keys(certKey: seq<byte>, deviceKey: seq<byte>)

  /** What can happen. Power may go between any two of these; an authentication that is not delivered is
      one where it went after the request had been handled. */
  datatype Life =
    | Boot(keys: Option<Keys>, read: ReadIo, reset: WriteIo, iv: seq<byte>, salt: seq<byte>)
    | PowerLoss
    | Confirm
    | ChangeState(state: nat)
    | Registration(request: seq<byte>, filesOk: bool, cert: seq<byte>, nonce: seq<byte>, random: seq<byte>)
    | Authentication(request: seq<byte>, filesOk: bool, random: seq<byte>, write: WriteIo, iv: seq<byte>,
                     salt: seq<byte>, delivered: bool)

  predicate Possible(l: Life) {
    match l
    case Registration(request, _, cert, nonce, _) =>
      |request| == BUF_LEN && |nonce| == 32 && |cert| <= MAX_CERT_LEN
    case Authentication(request, _, _, _, _, _, _) => |request| == BUF_LEN
    case _ => true
  }

  /** The token's memory while it has power. */
  datatype Token = Token(keys: Keys, counter: uint32, ready: bool, present: bool)

  /** What has been done so far, as seen from outside. */
  datatype Deed = Confirmed | Registered | Signed(counter: uint32, present: bool, delivered: bool)

  datatype World = World(file: Option<CounterFile>, token: Option<Token>, deeds: seq<Deed>)

  function Increment(x: uint32): uint32 {
    (x + 1) % 0x1_0000_0000
  }

  /** The 32-bit counter wraps at its maximum and nowhere else. */
  lemma IncrementWraps(x: uint32)
    ensures Increment(x) > x <==> x < 0xFFFF_FFFF
  {
  }

  ghost function Booted(c: Crypto, w: World, l: Life): World
    requires l.Boot?
  {
    if l.keys == None then w.(token := None)
    else match ReadValue(c, w.file, l.read)
      case Some(v) =>
        World(FileAfterRead(c, w.file, l.read, l.iv, l.salt), Some(Token(l.keys.value, v, true, false)), w.deeds)
      case None =>
        if l.reset.Works()
        then World(Some(NewFile(c, 0, l.iv, l.salt)), Some(Token(l.keys.value, 0, true, false)), w.deeds)
        else w.(token := None)
  }

  /** This event is an authentication that will be answered with a signature. */
  predicate Signs(c: Crypto, w: World, l: Life)
    requires Possible(l)
  {
    && l.Authentication? && w.token.Some? && w.token.value.ready
    && Refusal(c, w.token.value.keys.deviceKey, l.request, w.token.value.present, l.filesOk) == None
  }

  ghost function Authenticated(c: Crypto, w: World, l: Life): World
    requires Possible(l) && l.Authentication? && w.token.Some? && w.token.value.ready
  {
    var t := w.token.value;
    if !Signs(c, w, l) then w.(token := Some(t.(ready := l.filesOk, present := t.present && !l.filesOk)))
    else
      var next := Increment(t.counter);
      World(if l.write.Works() then Some(NewFile(c, next, l.iv, l.salt)) else w.file,
            Some(t.(counter := next, present := false)),
            w.deeds + [Signed(next, t.present, l.delivered)])
  }

  ghost function Next(c: Crypto, w: World, l: Life): World
    requires Possible(l)
  {
    match l
    case Boot(_, _, _, _, _) => Booted(c, w, l)
    case PowerLoss => w.(token := None)
    case Confirm =>
      if w.token == None then w
      else World(w.file, Some(w.token.value.(present := true)), w.deeds + [Confirmed])
    case ChangeState(_) =>
      if w.token == None then w else w.(token := Some(w.token.value.(present := false)))
    case Registration(_, filesOk, _, _, _) =>
      if w.token == None || !w.token.value.ready then w
      else
        var t := w.token.value;
        World(w.file, Some(t.(ready := filesOk, present := t.present && !filesOk)),
              if filesOk && t.present then w.deeds + [Registered] else w.deeds)
    case Authentication(_, _, _, _, _, _, delivered) =>
      if w.token == None || !w.token.value.ready then w
      else
        var w' := Authenticated(c, w, l);
        if delivered then w' else w'.(token := None)
  }

  ghost function After(c: Crypto, w: World, ls: seq<Life>): World
    requires forall l <- ls :: Possible(l)
  {
    if ls == [] then w else Next(c, After(c, w, ls[..|ls| - 1]), ls[|ls| - 1])
  }

  lemma AfterOneMore(c: Crypto, w: World, ls: seq<Life>, l: Life)
    requires (forall x <- ls :: Possible(x)) && Possible(l)
    ensures forall x <- ls + [l] :: Possible(x)
    ensures After(c, w, ls + [l]) == Next(c, After(c, w, ls), l)
  {
    assert (ls + [l])[..|ls|] == ls;
  }

  // ---------------------------------------------------------------- user presence

  /** What an event adds to the log: a confirmation under power, a registration with the files in order and a
      confirmation held, a signature. */
  lemma DeedsFromEvents(c: Crypto, w: World, l: Life)
    requires Possible(l)
    ensures Next(c, w, l).deeds == w.deeds +
      if l.Confirm? && w.token.Some? then [Confirmed]
      else if l.Registration? && l.filesOk && w.token.Some? && w.token.value.ready && w.token.value.present
      then [Registered]
      else if Signs(c, w, l) then [Signed(Increment(w.token.value.counter), w.token.value.present, l.delivered)]
      else []
  {
    assert w.deeds + [] == w.deeds;
  }

  function Confirmations(ds: seq<Deed>): nat {
    if ds == [] then 0 else Confirmations(ds[..|ds| - 1]) + if ds[|ds| - 1].Confirmed? then 1 else 0
  }

  /** Registrations, and signatures that report the user's presence. */
  function Uses(ds: seq<Deed>): nat {
    if ds == [] then 0
    else
      var d := ds[|ds| - 1];
      Uses(ds[..|ds| - 1]) + if d.Registered? || (d.Signed? && d.present) then 1 else 0
  }

  predicate Balanced(w: World) {
    Uses(w.deeds) + (if w.token.Some? && w.token.value.present then 1 else 0) <= Confirmations(w.deeds)
  }

  lemma OneMoreDeed(ds: seq<Deed>, d: Deed)
    ensures Confirmations(ds + [d]) == Confirmations(ds) + if d.Confirmed? then 1 else 0
    ensures Uses(ds + [d]) == Uses(ds) + if d.Registered? || (d.Signed? && d.present) then 1 else 0
  {
    assert (ds + [d])[..|ds|] == ds;
  }

  lemma StaysBalanced(c: Crypto, w: World, l: Life)
    requires Balanced(w) && Possible(l)
    ensures Balanced(Next(c, w, l))
  {
    if Next(c, w, l).deeds != w.deeds {
      OneMoreDeed(w.deeds, Next(c, w, l).deeds[|w.deeds|]);
    }
  }

  /** Over every life, registrations and answers with the presence bit never outnumber the user's
      confirmations. */
  lemma {:induction false} PresenceIsSpentOnce(c: Crypto, w: World, ls: seq<Life>)
    requires Balanced(w) && forall l <- ls :: Possible(l)
    ensures Balanced(After(c, w, ls)) && Uses(After(c, w, ls).deeds) <= Confirmations(After(c, w, ls).deeds)
  {
    if ls != [] {
      PresenceIsSpentOnce(c, w, ls[..|ls| - 1]);
      StaysBalanced(c, After(c, w, ls[..|ls| - 1]), ls[|ls| - 1]);
    }
  }

  /** A signature reports presence exactly if the token held a confirmation, which it must in enforce
      mode, and no confirmation is left. */
  lemma SignatureReportsPresence(c: Crypto, w: World, l: Life)
    requires Possible(l) && Signs(c, w, l)
    ensures var t, w' := w.token.value, Next(c, w, l);
      && w'.deeds == w.deeds + [Signed(Increment(t.counter), t.present, l.delivered)]
      && (Mode(l.request) == ENFORCE ==> t.present)
      && (w'.token.Some? ==> !w'.token.value.present)
  {
  }

  /** A running token stays up through this event and keeps a confirmation it holds: no change of state, and
      no request answered with the files in order. */
  predicate KeepsConfirmation(w: World, l: Life) {
    && w.token.Some?
    && match l
       case Boot(_, _, _, _, _) => false
       case PowerLoss => false
       case Confirm => true
       case ChangeState(_) => false
       case Registration(_, filesOk, _, _, _) => !w.token.value.ready || !filesOk
       case Authentication(_, filesOk, _, _, _, _, delivered) => !w.token.value.ready || (!filesOk && delivered)
  }

  /** Every event from k on does. */
  ghost predicate KeptFrom(c: Crypto, w: World, ls: seq<Life>, k: nat)
    requires k <= |ls| && forall l <- ls :: Possible(l)
  {
    k == |ls| || (KeepsConfirmation(After(c, w, ls[..|ls| - 1]), ls[|ls| - 1]) && KeptFrom(c, w, ls[..|ls| - 1], k))
  }

  ghost predicate ConfirmedSince(c: Crypto, w: World, ls: seq<Life>, k: nat)
    requires forall l <- ls :: Possible(l)
  {
    k < |ls| && ls[k].Confirm? && After(c, w, ls[..k]).token.Some? && KeptFrom(c, w, ls, k + 1)
  }

  lemma PresenceStep(c: Crypto, w: World, l: Life)
    requires Possible(l)
    ensures var token := Next(c, w, l).token;
      token.Some? && token.value.present <==>
        (l.Confirm? && w.token.Some?) || (w.token.Some? && w.token.value.present && KeepsConfirmation(w, l))
  {
  }

  lemma ConfirmedOneMore(c: Crypto, w: World, ls: seq<Life>, k: nat)
    requires ls != [] && forall l <- ls :: Possible(l)
    ensures var n := |ls| - 1;
      var w1 := After(c, w, ls[..n]);
      ConfirmedSince(c, w, ls, k) <==>
        || (k == n && ls[n].Confirm? && w1.token.Some?)
        || (k < n && ConfirmedSince(c, w, ls[..n], k) && KeepsConfirmation(w1, ls[n]))
  {
    if k < |ls| - 1 {
      assert ls[..|ls| - 1][..k] == ls[..k];
    }
  }

  /** A token holds a confirmation if and only if the user gave one since it was started and nothing has
      used it up or withdrawn it since. */
  lemma {:induction false} PresentIffConfirmed(c: Crypto, w: World, ls: seq<Life>)
    requires (forall l <- ls :: Possible(l)) && w.token == None
    ensures var token := After(c, w, ls).token;
      token.Some? && token.value.present <==> exists k :: ConfirmedSince(c, w, ls, k)
  {
    if ls != [] {
      var n := |ls| - 1;
      PresentIffConfirmed(c, w, ls[..n]);
      PresenceStep(c, After(c, w, ls[..n]), ls[n]);
      ConfirmedOneMore(c, w, ls, n);
      if exists k :: ConfirmedSince(c, w, ls, k) {
        var k :| ConfirmedSince(c, w, ls, k);
        ConfirmedOneMore(c, w, ls, k);
      }
      if exists k :: ConfirmedSince(c, w, ls[..n], k) {
        var k :| ConfirmedSince(c, w, ls[..n], k);
        ConfirmedOneMore(c, w, ls, k);
      }
    }
  }

  // ---------------------------------------------------------------- the signature counter

  /** The counters in the answers that went out. */
  function Sent(ds: seq<Deed>): seq<uint32> {
    if ds == [] then []
    else
      var d := ds[|ds| - 1];
      Sent(ds[..|ds| - 1]) + if d.Signed? && d.delivered then [d.counter] else []
  }

  lemma OneMoreSent(ds: seq<Deed>, d: Deed)
    ensures Sent(ds + [d]) == Sent(ds) + if d.Signed? && d.delivered then [d.counter] else []
  {
    assert (ds + [d])[..|ds|] == ds;
  }

  /** What an event does to the counter: a start that reads the file, one that cannot and begins again
      from zero, the loss of the memory, a signature. */
  datatype Effect = Nothing | Off | Read | Reset | Sign(persisted: bool, delivered: bool)

  ghost function EffectOf(c: Crypto, w: World, l: Life): Effect
    requires Possible(l)
  {
    match l
    case Boot(keys, read, reset, _, _) =>
      if keys == None then Off
      else if ReadValue(c, w.file, read).Some? then Read
      else if reset.Works() then Reset else Off
    case PowerLoss => Off
    case Authentication(_, _, _, write, _, _, delivered) =>
      if Signs(c, w, l) then Sign(write.Works(), delivered)
      else if w.token.Some? && w.token.value.ready && !delivered then Off else Nothing
    case _ => Nothing
  }

  ghost function Effects(c: Crypto, w: World, ls: seq<Life>): (es: seq<Effect>)
    requires forall l <- ls :: Possible(l)
    ensures |es| == |ls|
  {
    if ls == [] then []
    else
      var front := ls[..|ls| - 1];
      Effects(c, w, front) + [EffectOf(c, After(c, w, front), ls[|ls| - 1])]
  }

  /** The counter that the file stands for, the one in memory, and those sent. */
  datatype Counting = Counting(file: Option<uint32>, memory: Option<uint32>, sent: seq<uint32>)

  ghost function CountingOf(c: Crypto, w: World): Counting {
    Counting(Stored(c, w.file), if w.token.Some? then Some(w.token.value.counter) else None, Sent(w.deeds))
  }

  function Counted(k: Counting, e: Effect): Counting {
    match e
    case Nothing => k
    case Off => k.(memory := None)
    case Read => k.(memory := k.file)
    case Reset => k.(file := Some(0), memory := Some(0))
    case Sign(persisted, delivered) =>
      if k.memory == None then k
      else
        var n := Increment(k.memory.value);
        Counting(if persisted then Some(n) else k.file, if delivered then Some(n) else None,
                 k.sent + if delivered then [n] else [])
  }

  function CountedAll(k: Counting, es: seq<Effect>): Counting {
    if es == [] then k else Counted(CountedAll(k, es[..|es| - 1]), es[|es| - 1])
  }

  lemma StartSimulates(c: Crypto, w: World, l: Life)
    requires Sound(c) && l.Boot?
    ensures CountingOf(c, Booted(c, w, l)) == Counted(CountingOf(c, w), EffectOf(c, w, l))
  {
    ReadKeepsMeaning(c, w.file, l.read, l.iv, l.salt);
  }

  lemma SignatureSimulates(c: Crypto, w: World, l: Life)
    requires Sound(c) && Possible(l) && Signs(c, w, l)
    ensures CountingOf(c, Next(c, w, l)) == Counted(CountingOf(c, w), Sign(l.write.Works(), l.delivered))
  {
    var n := Increment(w.token.value.counter);
    NewFileStands(c, n, l.iv, l.salt);
    SignatureMade(c, w, l);
    OneMoreSent(w.deeds, Signed(n, w.token.value.present, l.delivered));
  }

  lemma SignatureMade(c: Crypto, w: World, l: Life)
    requires Possible(l) && Signs(c, w, l)
    ensures var n, w' := Increment(w.token.value.counter), Next(c, w, l);
      && w'.file == (if l.write.Works() then Some(NewFile(c, n, l.iv, l.salt)) else w.file)
      && w'.deeds == w.deeds + [Signed(n, w.token.value.present, l.delivered)]
      && (if l.delivered then w'.token.Some? && w'.token.value.counter == n else w'.token == None)
  {
  }

  /** The counter's fate depends on nothing but these effects. */
  lemma EffectSimulates(c: Crypto, w: World, l: Life)
    requires Sound(c) && Possible(l)
    ensures CountingOf(c, Next(c, w, l)) == Counted(CountingOf(c, w), EffectOf(c, w, l))
  {
    if l.Boot? {
      StartSimulates(c, w, l);
    } else if Signs(c, w, l) {
      SignatureSimulates(c, w, l);
    } else {
      OneMoreSent(w.deeds, Confirmed);
      OneMoreSent(w.deeds, Registered);
    }
  }

  lemma {:induction false} EffectsSimulate(c: Crypto, w: World, ls: seq<Life>)
    requires Sound(c) && forall l <- ls :: Possible(l)
    ensures CountingOf(c, After(c, w, ls)) == CountedAll(CountingOf(c, w), Effects(c, w, ls))
  {
    if ls != [] {
      var front, l := ls[..|ls| - 1], ls[|ls| - 1];
      EffectsSimulate(c, w, front);
      EffectSimulates(c, After(c, w, front), l);
      var es := Effects(c, w, ls);
      assert es[..|es| - 1] == Effects(c, w, front);
    }
  }

  predicate StrictlyIncreasing(xs: seq<uint32>) {
    forall i, j :: 0 <= i < j < |xs| ==> xs[i] < xs[j]
  }

  /** A token under power has a counter file, which may lag behind it but is never ahead. */
  predicate Lags(k: Counting) {
    k.memory.Some? ==> k.file.Some? && k.file.value <= k.memory.value
  }

  predicate Below(k: Counting, bound: nat) {
    (k.file.Some? ==> k.file.value < bound) && (k.memory.Some? ==> k.memory.value < bound)
  }

  /** Whatever fails, below 2^32. */
  lemma {:induction false} CountersLag(k: Counting, es: seq<Effect>, bound: nat)
    requires Lags(k) && 0 < bound && Below(k, bound) && bound + |es| <= 0x1_0000_0000
    ensures Lags(CountedAll(k, es)) && Below(CountedAll(k, es), bound + |es|)
  {
    if es != [] {
      CountersLag(k, es[..|es| - 1], bound);
    }
  }

  /** Without signatures the file keeps its meaning unless it is reset, and a restarted token holds what
      the file says. */
  lemma {:induction false} QuietLife(k: Counting, es: seq<Effect>)
    requires forall e <- es :: !e.Sign?
    ensures var k' := CountedAll(k, es);
      && k'.file == (if Reset in es then Some(0) else k.file) && k'.sent == k.sent
      && (k'.memory.Some? ==> k'.memory == if Read in es || Reset in es then k'.file else k.memory)
  {
    if es != [] {
      assert es == es[..|es| - 1] + [es[|es| - 1]];
      QuietLife(k, es[..|es| - 1]);
    }
  }

  /** When two answers in a row carry increasing counters, whatever happened in between and whatever
      failed before: if and only if no start in between had to reset the counter and, if there was a
      start, the first answer's counter had reached the file. */
  lemma AnswersIncreaseIff(k: Counting, persisted: bool, between: seq<Effect>)
    requires Lags(k) && k.memory.Some? && k.memory.value + 2 < 0x1_0000_0000
    requires forall e <- between :: !e.Sign?
    requires CountedAll(Counted(k, Sign(persisted, true)), between).memory.Some?
    ensures var first := Increment(k.memory.value);
      var second := Increment(CountedAll(Counted(k, Sign(persisted, true)), between).memory.value);
      && (first < second <==> Reset !in between && (Read in between ==> persisted))
      && (Reset in between ==> second == 1 <= first)
      && (Reset !in between && Read in between && !persisted ==> k.file == Some(second - 1))
  {
    QuietLife(Counted(k, Sign(persisted, true)), between);
  }

  /** The same on the device: what its answers carry is decided by the outcomes of the storage calls. */
  lemma DeviceAnswersIncreaseIff(c: Crypto, w: World, a: Life, between: seq<Life>, b: Life)
    requires Sound(c) && Lags(CountingOf(c, w)) && Possible(a) && Possible(b) && forall l <- between :: Possible(l)
    requires Signs(c, w, a) && a.delivered && w.token.value.counter + 2 < 0x1_0000_0000
    requires var w1 := Next(c, w, a);
      && (forall e <- Effects(c, w1, between) :: !e.Sign?)
      && Signs(c, After(c, w1, between), b) && b.delivered
    ensures var w1 := Next(c, w, a);
      var es, w3 := Effects(c, w1, between), Next(c, After(c, w1, between), b);
      exists first, second :: Sent(w3.deeds) == Sent(w.deeds) + [first, second]
        && (first < second <==> Reset !in es && (Read in es ==> a.write.Works()))
        && (Reset in es ==> second == 1 <= first)
  {
    var k, w1 := CountingOf(c, w), Next(c, w, a);
    SignatureSimulates(c, w, a);
    var w2, es := After(c, w1, between), Effects(c, w1, between);
    EffectsSimulate(c, w1, between);
    SignatureSimulates(c, w2, b);
    AnswersSent(k, a.write.Works(), es, b.write.Works());
    assert CountingOf(c, Next(c, w2, b)).sent == Sent(Next(c, w2, b).deeds);
  }

  lemma AnswersSent(k: Counting, persisted: bool, between: seq<Effect>, persisted': bool)
    requires Lags(k) && k.memory.Some? && k.memory.value + 2 < 0x1_0000_0000
    requires forall e <- between :: !e.Sign?
    requires CountedAll(Counted(k, Sign(persisted, true)), between).memory.Some?
    ensures var last := Counted(CountedAll(Counted(k, Sign(persisted, true)), between), Sign(persisted', true));
      exists first, second :: last.sent == k.sent + [first, second]
        && (first < second <==> Reset !in between && (Read in between ==> persisted))
        && (Reset in between ==> second == 1 <= first)
  {
    var k1 := Counted(k, Sign(persisted, true));
    var k2 := CountedAll(k1, between);
    AnswersIncreaseIff(k, persisted, between);
    QuietLife(k1, between);
    var first, second := Increment(k.memory.value), Increment(k2.memory.value);
    assert k.sent + [first] + [second] == k.sent + [first, second];
  }

  /** No start resets a counter that the file still holds, and the counter of every answer that goes out
      has reached the file. */
  predicate Durable(k: Counting, e: Effect) {
    (e == Reset ==> k.file == None) && (e.Sign? && e.delivered ==> e.persisted)
  }

  /** Memory and file agree, and nothing higher has gone out. */
  predicate Ordered(k: Counting) {
    && (k.memory.Some? ==> k.file == k.memory)
    && StrictlyIncreasing(k.sent) && forall x <- k.sent :: k.file.Some? && x <= k.file.value
  }

  lemma AppendHigher(xs: seq<uint32>, level: nat, x: uint32)
    requires StrictlyIncreasing(xs) && (forall y <- xs :: y <= level) && x > level
    ensures StrictlyIncreasing(xs + [x]) && forall y <- xs + [x] :: y <= x
  {
    var zs := xs + [x];
    forall i, j | 0 <= i < j < |zs|
      ensures zs[i] < zs[j]
    {
      assert zs[i] in xs;
    }
  }

  lemma StaysOrdered(k: Counting, e: Effect)
    requires Ordered(k) && Durable(k, e) && Below(k, 0xFFFF_FFFF)
    ensures Ordered(Counted(k, e))
  {
    if e.Sign? && k.memory.Some? {
      if e.delivered {
        AppendHigher(k.sent, k.memory.value, Increment(k.memory.value));
      } else {
        assert k.sent + [] == k.sent;
      }
    }
  }

  /** Over every run of durable effects below 2^32 the counters sent increase strictly. */
  lemma {:induction false} CountersIncrease(k: Counting, es: seq<Effect>, bound: nat)
    requires Ordered(k) && 0 < bound && Below(k, bound) && bound + |es| <= 0x1_0000_0000
    requires forall i :: 0 <= i < |es| ==> Durable(CountedAll(k, es[..i]), es[i])
    ensures Ordered(CountedAll(k, es)) && StrictlyIncreasing(CountedAll(k, es).sent)
  {
    if es != [] {
      var front := es[..|es| - 1];
      forall i | 0 <= i < |front|
        ensures Durable(CountedAll(k, front[..i]), front[i])
      {
        assert front[..i] == es[..i];
      }
      CountersIncrease(k, front, bound);
      CountersLag(k, front, bound);
      StaysOrdered(CountedAll(k, front), es[|es| - 1]);
    }
  }

  /** Over every durable life of a device, across any number of restarts and power losses. */
  lemma DeviceCountersIncrease(c: Crypto, w: World, ls: seq<Life>, bound: nat)
    requires Sound(c) && forall l <- ls :: Possible(l)
    requires Ordered(CountingOf(c, w)) && 0 < bound && Below(CountingOf(c, w), bound) && bound + |ls| <= 0x1_0000_0000
    requires var es := Effects(c, w, ls);
      forall i :: 0 <= i < |es| ==> Durable(CountedAll(CountingOf(c, w), es[..i]), es[i])
    ensures StrictlyIncreasing(Sent(After(c, w, ls).deeds))
  {
    EffectsSimulate(c, w, ls);
    CountersIncrease(CountingOf(c, w), Effects(c, w, ls), bound);
  }

  // ---------------------------------------------------------------- the failing cases happen

  const Fine := WriteIo(true, true, true)
  const Clear := ReadIo(true, true, true, Fine)
  const Factory := World(None, None, [])

  ghost function Answer(m: seq<byte>, write: WriteIo): Life {
    Authentication(m, true, [], write, [], [], true)
  }

  ghost function Start(keys: Keys, read: ReadIo): Life {
    Boot(Some(keys), read, Fine, [], [])
  }

  /** A start and an answer to an acceptable request. */
  lemma StartAndAnswer(c: Crypto, w: World, keys: Keys, read: ReadIo, m: seq<byte>, write: WriteIo)
    requires Sound(c) && |m| == BUF_LEN && (w.file.Some? ==> w.file.value.version == COUNTER_VERSION)
    requires forall present: bool :: Refusal(c, keys.deviceKey, m, present, true) == None
    ensures var v, w' := ReadValue(c, w.file, read), Next(c, Next(c, w, Start(keys, read)), Answer(m, write));
      var n: uint32 := if v.Some? then v.value else 0;
      && Sent(w'.deeds) == Sent(w.deeds) + [Increment(n)]
      && w'.file.Some? && w'.file.value.version == COUNTER_VERSION
      && Stored(c, w'.file) == Some(if write.Works() then Increment(n) else n)
  {
    var v := ReadValue(c, w.file, read);
    var n: uint32 := if v.Some? then v.value else 0;
    var w1 := Next(c, w, Start(keys, read));
    Started(c, w, keys, read);
    var l := Answer(m, write);
    assert Signs(c, w1, l);
    SignatureMade(c, w1, l);
    NewFileStands(c, Increment(n), l.iv, l.salt);
    OneMoreSent(w.deeds, Signed(Increment(n), false, true));
  }

  lemma Started(c: Crypto, w: World, keys: Keys, read: ReadIo)
    requires Sound(c) && (w.file.Some? ==> w.file.value.version == COUNTER_VERSION)
    ensures var w', v := Next(c, w, Start(keys, read)), ReadValue(c, w.file, read);
      var n: uint32 := if v.Some? then v.value else 0;
      && w'.token == Some(Token(keys, n, true, false)) && w'.deeds == w.deeds
      && w'.file.Some? && w'.file.value.version == COUNTER_VERSION && Stored(c, w'.file) == Some(n)
  {
    NewFileStands(c, 0, [], []);
  }

  lemma FourSteps(c: Crypto, w: World, l1: Life, l2: Life, l3: Life, l4: Life)
    requires Possible(l1) && Possible(l2) && Possible(l3) && Possible(l4)
    ensures After(c, w, [l1, l2, l3, l4]) == Next(c, Next(c, Next(c, Next(c, w, l1), l2), l3), l4)
  {
    AfterOneMore(c, w, [], l1);
    AfterOneMore(c, w, [l1], l2);
    AfterOneMore(c, w, [l1, l2], l3);
    AfterOneMore(c, w, [l1, l2, l3], l4);
    assert [] + [l1] == [l1] && [l1] + [l2] == [l1, l2];
    assert [l1, l2] + [l3] == [l1, l2, l3] && [l1, l2, l3] + [l4] == [l1, l2, l3, l4];
  }

  /** On every device: if the first answer's write fails, or if the restart cannot read the file, the
      answer after the restart repeats the counter. */
  lemma CountersRepeat(c: Crypto, keys: Keys, write: WriteIo, read: ReadIo) returns (ls: seq<Life>)
    requires Sound(c) && (!write.Works() || !(read.open && read.header && read.contents))
    ensures |ls| == 4 && (forall l <- ls :: Possible(l)) && Sent(After(c, Factory, ls).deeds) == [1, 1]
  {
    var m := AcceptableRequest(c, keys.deviceKey);
    ls := [Start(keys, Clear), Answer(m, write), Start(keys, read), Answer(m, Fine)];
    FourSteps(c, Factory, ls[0], ls[1], ls[2], ls[3]);
    StartAndAnswer(c, Factory, keys, Clear, m, write);
    var w := Next(c, Next(c, Factory, ls[0]), ls[1]);
    StartAndAnswer(c, w, keys, read, m, Fine);
  }
}

/** The token: registration, authentication, user presence and the signature counter. */
module U2fToken {
  import opened U2fDer
  import opened U2fFiles
  import opened U2fMessages
  import opened U2fLife

  /** Some bytes, the signature in DER and the success status, from `at` on. */
  method WriteTail(buf: array<byte>, at: nat, bytes: seq<byte>, signature: seq<byte>) returns (end: nat)
    requires SignatureShape(signature) && at + |bytes| + 74 <= buf.Length
    modifies buf
    ensures end == at + |bytes + Der(signature) + NO_ERROR| <= buf.Length
    ensures buf[..] == Patch(old(buf[..]), at, bytes + Der(signature) + NO_ERROR)
  {
    ghost var m := buf[..];
    Store(buf, at, bytes);
    end := at + |bytes|;
    var n := EncodeSignature(buf, end, signature);
    PatchTwice(m, at, bytes, Der(signature));
    end := end + n;
    Store(buf, end, NO_ERROR);
    PatchTwice(m, at, bytes + Der(signature), NO_ERROR);
    end := end + 2;
  }

  class U2fData {
    var deviceKey: seq<byte>
    var certKey: seq<byte>
    var counter: uint32
    var ready: bool
    var userPresent: bool
    const store: CounterStore

    ghost function View(): Token
      reads this
    {
      Token(Keys(certKey, deviceKey), counter, ready, userPresent)
    }

    constructor (store: CounterStore)
      ensures this.store == store && !ready && !userPresent
    {
      this.store := store;
      deviceKey, certKey := [], [];
      counter, ready, userPresent := 0, false, false;
    }

    /** Start-up. `keys` are the keys if certificate and keys could be loaded (or made); a counter that
        cannot be read restarts from zero. */
    method Init(keys: Option<Keys>, iv: seq<byte>, salt: seq<byte>, read: ReadIo, reset: WriteIo) returns (ok: bool)
      requires Sound(store.crypto)
      modifies this`deviceKey, this`certKey, this`counter, this`ready, store
      ensures keys == None ==> !ok && store.file == old(store.file)
      ensures keys.Some? ==> match ReadValue(store.crypto, old(store.file), read)
        case Some(v) =>
          && ok && counter == v && store.file == FileAfterRead(store.crypto, old(store.file), read, iv, salt)
        case None =>
          && ok == reset.Works() && counter == 0
          && store.file == if ok then Some(NewFile(store.crypto, 0, iv, salt)) else old(store.file)
      ensures ok ==> ready && keys.Some? && keys.value == Keys(certKey, deviceKey)
    {
      if keys == None {
        return false;
      }
      certKey, deviceKey := keys.value.certKey, keys.value.deviceKey;
      var loaded, v := store.CntRead(iv, salt, read);
      if loaded {
        counter := v;
      } else {
        counter := 0;
        var written := store.CntWrite(0, iv, salt, reset);
        if !written {
          return false;
        }
      }
      ready := true;
      return true;
    }

    method ConfirmUserPresent()
      modifies this`userPresent
      ensures userPresent
    {
      userPresent := true;
    }

    /** Connection and disconnection withdraw the confirmation. */
    method SetState(state: nat)
      modifies this`userPresent
      ensures !userPresent
    {
      userPresent := false;
    }

    /** Answers a registration request in place. `cert` is the certificate as loaded into the answer. */
    method Register(buf: array<byte>, filesOk: bool, cert: seq<byte>, nonce: seq<byte>, random: seq<byte>)
      returns (len: nat, success: bool)
      requires Sound(store.crypto) && buf.Length == BUF_LEN && |nonce| == 32 && |cert| <= MAX_CERT_LEN
      modifies this`ready, this`userPresent, buf
      ensures success == (filesOk && old(userPresent))
      ensures ready == (old(ready) && filesOk)
      ensures userPresent == (old(userPresent) && !filesOk)
      ensures var reply :=
          if !filesOk then NOT_SUPPORTED
          else if !old(userPresent) then USER_MISSING
          else RegisterReply(store.crypto, deviceKey, certKey, cert, old(buf[..]), nonce, random);
        len == |reply| <= BUF_LEN && buf[..] == Patch(old(buf[..]), 0, reply)
    {
      if !filesOk {
        ready := false;
        Store(buf, 0, NOT_SUPPORTED);
        return 2, false;
      }
      if !userPresent {
        Store(buf, 0, USER_MISSING);
        return 2, false;
      }
      userPresent := false;
      len := WriteRegistration(buf, cert, nonce, random);
      success := true;
    }

    method WriteRegistration(buf: array<byte>, cert: seq<byte>, nonce: seq<byte>, random: seq<byte>) returns (len: nat)
      requires Sound(store.crypto) && |cert| <= MAX_CERT_LEN && buf.Length == BUF_LEN && |nonce| == 32
      modifies buf
      ensures var reply := RegisterReply(store.crypto, deviceKey, certKey, cert, old(buf[..]), nonce, random);
        len == |reply| <= BUF_LEN && buf[..] == Patch(old(buf[..]), 0, reply)
    {
      var c := store.crypto;
      ghost var m := buf[..];
      var challenge, app := buf[7..39], buf[39..71];
      var privateKey := c.hmac(deviceKey, app + nonce);
      var mac := c.hmac(deviceKey, privateKey + app);
      var pub := c.publicKey(privateKey);
      var hash := c.sha([0] + app + challenge + mac + nonce + pub);
      var signature := c.sign(certKey, hash, random);
      var front := [0x05] + pub + [64] + mac + nonce;
      Store(buf, 0, front);
      len := WriteTail(buf, |front|, cert, signature);
      PatchTwice(m, 0, front, cert + Der(signature) + NO_ERROR);
    }

    ghost function Flags(): byte
      reads this
    {
      if userPresent then 1 else 0
    }

    /** The answer to the request m in this state: the counter is incremented before use. */
    ghost function Assertion(m: seq<byte>, random: seq<byte>): seq<byte>
      requires |m| == BUF_LEN && Sound(store.crypto)
      reads this
    {
      AuthReply(store.crypto, deviceKey, Increment(counter), Flags(), m, random)
    }

    /** Answers an authentication request in place. The code does not look at the outcome of the write. */
    method Authenticate(buf: array<byte>, filesOk: bool, random: seq<byte>, iv: seq<byte>, salt: seq<byte>,
                        write: WriteIo)
      returns (len: nat, success: bool)
      requires Sound(store.crypto) && buf.Length == BUF_LEN
      modifies this`ready, this`userPresent, this`counter, buf, store
      ensures ready == (old(ready) && filesOk) && userPresent == (old(userPresent) && !filesOk)
      ensures success == (Refusal(store.crypto, deviceKey, old(buf[..]), old(userPresent), filesOk) == None)
      ensures success ==>
        && len == |old(Assertion(buf[..], random))| <= BUF_LEN
        && buf[..] == Patch(old(buf[..]), 0, old(Assertion(buf[..], random)))
      ensures success ==>
        && counter == Increment(old(counter))
        && store.file == if write.Works() then Some(NewFile(store.crypto, counter, iv, salt)) else old(store.file)
      ensures !success ==>
        && counter == old(counter) && store.file == old(store.file) && len == 2
        && buf[..] == Patch(old(buf[..]), 0,
             Refusal(store.crypto, deviceKey, old(buf[..]), old(userPresent), filesOk).value)
    {
      if !filesOk {
        ready := false;
        Store(buf, 0, NOT_SUPPORTED);
        return 2, false;
      }
      var flags: byte := 0;
      var p1 := buf[2];
      if userPresent {
        flags := 1;
      } else if p1 == ENFORCE {
        Store(buf, 0, USER_MISSING);
        return 2, false;
      }
      userPresent := false;
      var next := (counter + 1) % 0x1_0000_0000;
      var app, nonce := buf[39..71], buf[104..136];
      var privateKey := store.crypto.hmac(deviceKey, app + nonce);
      var mac := store.crypto.hmac(deviceKey, privateKey + app);
      if buf[72..104] != mac {
        Store(buf, 0, WRONG_DATA);
        return 2, false;
      }
      if p1 == CHECK_ONLY {
        Store(buf, 0, USER_MISSING);
        return 2, false;
      }
      assert next == Increment(old(counter)) && flags == old(Flags());
      len := WriteAssertion(buf, next, flags, random);
      counter := next;
      ghost var answer := buf[..];
      var _ := store.CntWrite(counter, iv, salt, write);
      assert buf[..] == answer;
      success := true;
    }

    method WriteAssertion(buf: array<byte>, next: uint32, flags: byte, random: seq<byte>) returns (len: nat)
      requires Sound(store.crypto) && buf.Length == BUF_LEN
      modifies buf
      ensures var reply := AuthReply(store.crypto, deviceKey, next, flags, old(buf[..]), random);
        len == |reply| <= BUF_LEN && buf[..] == Patch(old(buf[..]), 0, reply)
    {
      var c := store.crypto;
      ghost var m := buf[..];
      var challenge, app, nonce := buf[7..39], buf[39..71], buf[104..136];
      var privateKey := c.hmac(deviceKey, app + nonce);
      var hash := c.sha(app + [flags] + BigEndian4(next) + challenge);
      var signature := c.sign(privateKey, hash, random);
      len := WriteTail(buf, 0, [flags] + BigEndian4(next), signature);
    }

    /** The answer to a message in this state. */
    ghost function Answered(m: seq<byte>, i: Inputs): seq<byte>
      requires |m| == BUF_LEN && Sound(store.crypto)
      reads this
    {
      if m[1] == CMD_REGISTER then
        if !i.filesOk then NOT_SUPPORTED
        else if !userPresent then USER_MISSING
        else RegisterReply(store.crypto, deviceKey, certKey, i.cert, m, i.nonce, i.random)
      else if m[1] == CMD_AUTHENTICATE then
        match Refusal(store.crypto, deviceKey, m, userPresent, i.filesOk)
        case Some(reason) => reason
        case None => Assertion(m, i.random)
      else if m[1] == CMD_VERSION then VERSION_STRING + NO_ERROR
      else NOT_SUPPORTED
    }

    /** The message dispatcher. No answer leaves the buffer alone. */
    method MsgParse(buf: array<byte>, len: nat, i: Inputs) returns (respLen: nat, signed: bool)
      requires Sound(store.crypto) && buf.Length == BUF_LEN && |i.nonce| == 32 && |i.cert| <= MAX_CERT_LEN
      modifies this`ready, this`userPresent, this`counter, buf, store
      ensures respLen == 0 <==> !old(ready) || (old(buf[0]) != 0 && len < 5)
      ensures respLen == 0 ==> buf[..] == old(buf[..])
      ensures respLen > 0 ==>
        && respLen == |old(Answered(buf[..], i))| <= BUF_LEN
        && buf[..] == Patch(old(buf[..]), 0, old(Answered(buf[..], i)))
      ensures var handled := respLen > 0 && old(buf[1]) in {CMD_REGISTER, CMD_AUTHENTICATE};
        && ready == (old(ready) && (handled ==> i.filesOk))
        && userPresent == (old(userPresent) && (handled ==> !i.filesOk))
      ensures signed <==>
        && respLen > 0 && old(buf[1]) == CMD_AUTHENTICATE
        && Refusal(store.crypto, deviceKey, old(buf[..]), old(userPresent), i.filesOk) == None
      ensures counter == if signed then Increment(old(counter)) else old(counter)
      ensures store.file == if signed && i.write.Works() then Some(NewFile(store.crypto, counter, i.iv, i.salt))
                            else old(store.file)
    {
      signed := false;
      if !ready {
        return 0, false;
      }
      if buf[0] != 0 && len < 5 {
        return 0, false;
      }
      if buf[1] == CMD_REGISTER {
        var registered;
        respLen, registered := Register(buf, i.filesOk, i.cert, i.nonce, i.random);
      } else if buf[1] == CMD_AUTHENTICATE {
        respLen, signed := Authenticate(buf, i.filesOk, i.random, i.iv, i.salt, i.write);
      } else if buf[1] == CMD_VERSION {
        ghost var m := buf[..];
        Store(buf, 0, VERSION_STRING);
        Store(buf, 6, NO_ERROR);
        PatchTwice(m, 0, VERSION_STRING, NO_ERROR);
        respLen := 8;
      } else {
        Store(buf, 0, NOT_SUPPORTED);
        respLen := 2;
      }
    }
  }

  /** What the outside world supplies to one message. */
  datatype Inputs = Inputs(filesOk: bool, cert: seq<byte>, nonce: seq<byte>, random: seq<byte>, iv: seq<byte>,
                           salt: seq<byte>, write: WriteIo)

  /** A request in a message buffer. */
  method Buffer(request: seq<byte>) returns (buf: array<byte>)
    requires |request| == BUF_LEN
    ensures fresh(buf) && buf.Length == BUF_LEN && buf[..] == request
  {
    buf := new byte[BUF_LEN](i requires 0 <= i < BUF_LEN => request[i]);
  }

  /** The device: its storage, the token while the power is on, and a log of what it did. */
  class Device {
    const store: CounterStore
    var token: U2fData?
    var deeds: seq<Deed>

    constructor (store: CounterStore)
      requires Sound(store.crypto)
      ensures this.store == store && Valid() && View() == World(store.file, None, [])
    {
      this.store := store;
      token := null;
      deeds := [];
    }

    ghost predicate Valid()
      reads this, token
    {
      Sound(store.crypto) && (token != null ==> token.store == store)
    }

    ghost function View(): World
      reads this, store, token
    {
      World(store.file, if token == null then None else Some(token.View()), deeds)
    }

    method Start(l: Life)
      requires Valid() && l.Boot?
      modifies this, store
      ensures Valid() && View() == Next(store.crypto, old(View()), l)
      ensures token == null || fresh(token)
    {
      var t := new U2fData(store);
      var ok := t.Init(l.keys, l.iv, l.salt, l.read, l.reset);
      token := if ok then t else null;
    }

    /** A registration is an answer that starts with its reserved byte. */
    method RegisterOnce(l: Life)
      requires Valid() && Possible(l) && l.Registration?
      modifies this, token
      ensures Valid() && View() == Next(store.crypto, old(View()), l) && token == old(token)
    {
      if token == null || !token.ready {
        return;
      }
      var buf := Buffer(l.request);
      ghost var reply := if !l.filesOk then NOT_SUPPORTED else if !token.userPresent then USER_MISSING
        else RegisterReply(store.crypto, token.deviceKey, token.certKey, l.cert, l.request, l.nonce, l.random);
      var _, _ := token.Register(buf, l.filesOk, l.cert, l.nonce, l.random);
      PatchReads(l.request, 0, reply);
      assert buf[0] == reply[0];
      if buf[0] == 0x05 {
        deeds := deeds + [Registered];
      }
    }

    /** Handles the request. The counter and the presence are what the answer's bytes say. */
    method Answer(l: Life) returns (success: bool, counter: uint32, present: bool)
      requires Valid() && Possible(l) && l.Authentication? && token != null && token.ready
      modifies store, token
      ensures Valid() && success == Signs(store.crypto, old(View()), l)
      ensures success ==> counter == Increment(old(token.counter)) && present == old(token.userPresent)
      ensures var w := Authenticated(store.crypto, old(View()), l);
        w.file == store.file && w.token == Some(token.View())
    {
      var buf := Buffer(l.request);
      ghost var answer, next, flags := token.Assertion(l.request, l.random), Increment(token.counter), token.Flags();
      var _, signed := token.Authenticate(buf, l.filesOk, l.random, l.iv, l.salt, l.write);
      success, counter, present := signed, 0, false;
      if success {
        AnswerStarts(buf[..], l.request, answer, flags, next);
        counter, present := BigEndian(buf[1..5]), buf[0] == 1;
      }
    }

    method AuthenticateOnce(l: Life)
      requires Valid() && Possible(l) && l.Authentication?
      modifies this, store, token
      ensures Valid() && View() == Next(store.crypto, old(View()), l) && (token == null || token == old(token))
    {
      if token == null || !token.ready {
        return;
      }
      var success, counter, present := Answer(l);
      if success {
        deeds := deeds + [Signed(counter, present, l.delivered)];
      }
      if !l.delivered {
        token := null;
      }
    }

    method Step(l: Life)
      requires Valid() && Possible(l)
      modifies this, store, token
      ensures Valid() && View() == Next(store.crypto, old(View()), l)
      ensures token == null || token == old(token) || fresh(token)
    {
      match l {
        case Boot(_, _, _, _, _) =>
          Start(l);
        case PowerLoss =>
          token := null;
        case Confirm =>
          if token != null {
            token.ConfirmUserPresent();
            deeds := deeds + [Confirmed];
          }
        case ChangeState(state) =>
          if token != null {
            token.SetState(state);
          }
        case Registration(_, _, _, _, _) =>
          RegisterOnce(l);
        case Authentication(_, _, _, _, _, _, _) =>
          AuthenticateOnce(l);
      }
    }

    /** Every life, whatever storage does. */
    method Run(ls: seq<Life>)
      requires Valid() && (forall l <- ls :: Possible(l))
      modifies this, store, token
      ensures Valid() && View() == After(store.crypto, old(View()), ls)
    {
      ghost var w := View();
      var k := 0;
      assert ls[..0] == [];
      while k < |ls|
        invariant 0 <= k <= |ls| && Valid() && (token == null || token == old(token) || fresh(token))
        invariant View() == After(store.crypto, w, ls[..k])
      {
        assert ls[..k + 1] == ls[..k] + [ls[k]];
        AfterOneMore(store.crypto, w, ls[..k], ls[k]);
        Step(ls[k]);
        k := k + 1;
      }
      assert ls[..k] == ls;
    }
  }

  lemma AnswerStarts(buf: seq<byte>, request: seq<byte>, answer: seq<byte>, flags: byte, counter: uint32)
    requires |answer| <= |request| && buf == Patch(request, 0, answer)
    requires |answer| >= 5 && answer[0] == flags && answer[1..5] == BigEndian4(counter)
    ensures |buf| >= 5 && buf[0] == flags && BigEndian(buf[1..5]) == counter
  {
    PatchReads(request, 0, answer);
    BigEndian4Value(counter);
    assert buf[1..5] == answer[1..5];
  }
}

/** Where the transport meets the token. */
module U2fDevice {
  import HidProtocol
  import opened U2fDer
  import opened U2fFiles
  import opened U2fMessages
  import opened U2fToken

  /** The token's answer, written over the payload in place, is a reply as the transport expects it:
      it fits, it is what the transport's reference splices in, and it is empty only if the token is
      not ready or the message too short. */
  method TokenReply(token: U2fData, payload: array<byte>, len: nat, i: Inputs) returns (reply: seq<byte>)
    requires Sound(token.store.crypto) && payload.Length == HidProtocol.MAX_PAYLOAD_LEN
    requires |i.nonce| == 32 && |i.cert| <= MAX_CERT_LEN
    modifies token, token.store, payload
    ensures |reply| <= HidProtocol.MAX_PAYLOAD_LEN && payload[..] == HidProtocol.Splice(old(payload[..]), 0, reply)
    ensures reply == [] <==> !old(token.ready) || (old(payload[0]) != 0 && len < 5)
    ensures reply != [] ==> reply == old(token.Answered(payload[..], i))
  {
    ghost var m, answer := payload[..], token.Answered(payload[..], i);
    var respLen, signed := token.MsgParse(payload, len, i);
    reply := payload[..respLen];
    if respLen > 0 {
      PatchReads(m, 0, answer);
      assert payload[..] == m[..0] + answer + m[|answer|..];
    }
  }
}
