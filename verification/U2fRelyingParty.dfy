/** What the other end of the protocol makes of the token's answers (FIDO U2F Raw Message Formats, sections
    4 and 5), from the bytes of its own request and of the answer alone. */
module U2fRelyingParty {
  import opened U2fDer
  import opened U2fFiles
  import opened U2fLife
  import opened U2fMessages
  import opened U2fToken

  /** `der` reads as the signature that this key makes over this hash. */
  ghost predicate SignedBy(c: Crypto, key: seq<byte>, hash: Hash, random: seq<byte>, der: seq<byte>) {
    var sig := c.sign(key, hash, random);
    ParseSignature(der) == Some((BigEndian(sig[..32]), BigEndian(sig[32..])))
  }

  /** The answer to a registration request: 0x05, a public key, a handle of 64 bytes, the attestation
      certificate, and its key's signature over zero, application, challenge, handle and public key. */
  ghost predicate Attests(c: Crypto, certKey: seq<byte>, cert: seq<byte>, m: seq<byte>, random: seq<byte>,
                          answer: seq<byte>)
    requires |m| == 7609
  {
    var end, n := |answer| - 2, |cert|;
    && 131 + n <= end && answer[0] == 0x05 && answer[66] == 64
    && answer[131..131 + n] == cert && answer[end..] == [0x90, 0x00]
    && SignedBy(c, certKey, c.sha([0] + m[39..71] + m[7..39] + answer[67..131] + answer[1..66]), random,
                answer[131 + n..end])
  }

  /** The answer to an authentication request: a byte that tells whether the user was there, the counter,
      and the key's signature over application, that byte, the counter and the challenge. */
  ghost predicate Asserts(c: Crypto, key: seq<byte>, m: seq<byte>, random: seq<byte>, present: bool, counter: uint32,
                          answer: seq<byte>)
    requires |m| == 7609
  {
    var end := |answer| - 2;
    && 5 <= end && answer[0] == (if present then 1 else 0) && BigEndian(answer[1..5]) == counter
    && answer[end..] == [0x90, 0x00]
    && SignedBy(c, key, c.sha(m[39..71] + [answer[0]] + answer[1..5] + m[7..39]), random, answer[5..end])
  }

  lemma DerReads(c: Crypto, key: seq<byte>, hash: Hash, random: seq<byte>)
    ensures SignedBy(c, key, hash, random, Der(c.sign(key, hash, random)))
  {
    var sig := c.sign(key, hash, random);
    SignatureRoundTrip(sig[..32], sig[32..]);
  }

  lemma RegistrationAttests(c: Crypto, deviceKey: seq<byte>, certKey: seq<byte>, cert: seq<byte>, m: seq<byte>,
                            nonce: seq<byte>, random: seq<byte>)
    requires Sound(c) && |m| == 7609 && |nonce| == 32
    ensures Attests(c, certKey, cert, m, random, RegisterReply(c, deviceKey, certKey, cert, m, nonce, random))
  {
    var pub := c.publicKey(PrivateKey(c, deviceKey, AppId(m), nonce));
    var mac := HandleMac(c, deviceKey, AppId(m), nonce);
    HashAttested(c, pub, mac, nonce, m);
    RegistrationReads(c, certKey, cert, m, random, pub, mac, nonce);
  }

  lemma HashAttested(c: Crypto, pub: seq<byte>, mac: seq<byte>, nonce: seq<byte>, m: seq<byte>)
    requires |m| == 7609
    ensures c.sha([0] + AppId(m) + Challenge(m) + mac + nonce + pub) == AttestedHash(c, pub, mac + nonce, m)
  {
    assert [0] + AppId(m) + Challenge(m) + mac + nonce + pub == [0] + m[39..71] + m[7..39] + (mac + nonce) + pub;
  }

  lemma RegistrationReads(c: Crypto, certKey: seq<byte>, cert: seq<byte>, m: seq<byte>, random: seq<byte>,
                          pub: seq<byte>, mac: seq<byte>, nonce: seq<byte>)
    requires |m| == 7609 && |pub| == 65 && |mac| == |nonce| == 32
    ensures Attests(c, certKey, cert, m, random, [0x05] + pub + [64] + mac + nonce
                    + (cert + Der(c.sign(certKey, AttestedHash(c, pub, mac + nonce, m), random)) + NO_ERROR))
  {
    var der := Der(c.sign(certKey, AttestedHash(c, pub, mac + nonce, m), random));
    var answer := [0x05] + pub + [64] + mac + nonce + (cert + der + NO_ERROR);
    RegistrationFields(pub, mac, nonce, cert, der, answer);
    AttestsByFields(c, certKey, cert, m, random, pub, mac + nonce, answer);
  }

  lemma AttestsByFields(c: Crypto, certKey: seq<byte>, cert: seq<byte>, m: seq<byte>, random: seq<byte>,
                        pub: seq<byte>, handle: seq<byte>, answer: seq<byte>)
    requires |m| == 7609 && 133 + |cert| <= |answer|
    requires answer[0] == 0x05 && answer[1..66] == pub && answer[66] == 64 && answer[67..131] == handle
    requires var n, end := 131 + |cert|, |answer| - 2;
      && answer[131..n] == cert && answer[end..] == [0x90, 0x00]
      && answer[n..end] == Der(c.sign(certKey, AttestedHash(c, pub, handle, m), random))
    ensures Attests(c, certKey, cert, m, random, answer)
  {
    DerReads(c, certKey, AttestedHash(c, pub, handle, m), random);
  }

  ghost function AttestedHash(c: Crypto, pub: seq<byte>, handle: seq<byte>, m: seq<byte>): Hash
    requires |m| == 7609
  {
    c.sha([0] + m[39..71] + m[7..39] + handle + pub)
  }

  lemma RegistrationFields(pub: seq<byte>, mac: seq<byte>, nonce: seq<byte>, cert: seq<byte>, der: seq<byte>,
                           answer: seq<byte>)
    requires |pub| == 65 && |mac| == |nonce| == 32
    requires answer == [0x05] + pub + [64] + mac + nonce + (cert + der + [0x90, 0x00])
    ensures var n, end := 131 + |cert|, |answer| - 2;
      && end == n + |der| && answer[0] == 0x05 && answer[1..66] == pub && answer[66] == 64
      && answer[67..131] == mac + nonce
      && answer[131..n] == cert && answer[n..end] == der && answer[end..] == [0x90, 0x00]
  {
  }

  lemma AuthenticationAsserts(c: Crypto, deviceKey: seq<byte>, counter: uint32, flags: byte, m: seq<byte>,
                              random: seq<byte>)
    requires Sound(c) && |m| == 7609 && flags < 2
    ensures Asserts(c, PrivateKey(c, deviceKey, m[39..71], m[104..136]), m, random, flags == 1, counter,
                    AuthReply(c, deviceKey, counter, flags, m, random))
  {
    var key, hash := PrivateKey(c, deviceKey, m[39..71], m[104..136]), AssertedHash(c, counter, flags, m);
    BigEndian4Value(counter);
    DerReads(c, key, hash, random);
    AssertionFields(flags, BigEndian4(counter), Der(c.sign(key, hash, random)));
  }

  ghost function AssertedHash(c: Crypto, counter: uint32, flags: byte, m: seq<byte>): Hash
    requires |m| == 7609
  {
    c.sha(m[39..71] + [flags] + BigEndian4(counter) + m[7..39])
  }

  lemma AssertionFields(flags: byte, counter: seq<byte>, der: seq<byte>)
    requires |counter| == 4
    ensures var a := [flags] + counter + der + [0x90, 0x00];
      && |a| == 7 + |der| && a[0] == flags && a[1..5] == counter
      && a[5..|a| - 2] == der && a[|a| - 2..] == [0x90, 0x00]
  {
  }

  /** The token's answer to a registration request. */
  lemma RegistrationAnswer(token: U2fData, m: seq<byte>, i: Inputs)
    requires Sound(token.store.crypto) && |m| == 7609 && |i.nonce| == 32 && m[1] == 1
    ensures var answer := token.Answered(m, i);
      && (i.filesOk && token.userPresent ==>
            Attests(token.store.crypto, token.certKey, i.cert, m, i.random, answer))
      && (i.filesOk && !token.userPresent ==> answer == [0x69, 0x85])
      && (!i.filesOk ==> answer == [0x6D, 0x00])
  {
    RegistrationAttests(token.store.crypto, token.deviceKey, token.certKey, i.cert, m, i.nonce, i.random);
  }

  /** The token's answer to an authentication request: unless it is refused, with the next counter. */
  lemma AuthenticationAnswer(token: U2fData, m: seq<byte>, i: Inputs)
    requires Sound(token.store.crypto) && |m| == 7609 && m[1] == 2
    ensures var c, answer := token.store.crypto, token.Answered(m, i);
      match Refusal(c, token.deviceKey, m, token.userPresent, i.filesOk)
      case Some(reason) => answer == reason
      case None => Asserts(c, PrivateKey(c, token.deviceKey, m[39..71], m[104..136]), m, i.random, token.userPresent,
                           if token.counter == 0xFFFF_FFFF then 0 else token.counter + 1, answer)
  {
    var next: uint32 := if token.counter == 0xFFFF_FFFF then 0 else token.counter + 1;
    IncrementIs(token.counter, next);
    AuthenticationAsserts(token.store.crypto, token.deviceKey, next, token.Flags(), m, i.random);
  }

  lemma IncrementIs(counter: uint32, next: uint32)
    requires next == if counter == 0xFFFF_FFFF then 0 else counter + 1
    ensures Increment(counter) == next
  {
  }

  /** The version is "U2F_V2", and there is no other command. */
  lemma OtherAnswers(token: U2fData, m: seq<byte>, i: Inputs)
    requires Sound(token.store.crypto) && |m| == 7609 && m[1] !in {1, 2}
    ensures token.Answered(m, i) ==
      if m[1] == 3 then ['U' as int, '2' as int, 'F' as int, '_' as int, 'V' as int, '2' as int, 0x90, 0x00]
      else [0x6D, 0x00]
  {
  }

  /** The status words of a refused authentication: the device's files failed, the user was not there or was
      not asked for (modes 3 and 7), or the handle is not ours. Nothing else is refused. */
  lemma RefusedExactlyWhen(c: Crypto, deviceKey: seq<byte>, m: seq<byte>, present: bool, filesOk: bool)
    requires |m| == 7609
    ensures var refusal, known := Refusal(c, deviceKey, m, present, filesOk), KnownHandle(c, deviceKey, m);
      && (refusal == Some([0x6D, 0x00]) <==> !filesOk)
      && (refusal == Some([0x6A, 0x80]) <==> filesOk && !known && (m[2] == 3 ==> present))
      && (refusal == Some([0x69, 0x85]) <==> filesOk && ((m[2] == 3 && !present) || (m[2] == 7 && known)))
      && (refusal == None <==> filesOk && known && m[2] != 7 && (m[2] == 3 ==> present))
  {
    assert NOT_SUPPORTED[0] == 0x6D && USER_MISSING[0] == 0x69 && WRONG_DATA[0] == 0x6A;
    assert USER_MISSING[1] == 0x85 && WRONG_DATA[1] == 0x80;
  }

  /** Two different messages with the same authentication code under this key. */
  ghost predicate Collides(c: Crypto, key: seq<byte>) {
    exists x: seq<byte>, y: seq<byte> :: x != y && c.hmac(key, x) == c.hmac(key, y)
  }

  /** A handle is bound to its application and to its key: if its proof of origin is accepted with another
      application or another nonce, or another pair leads to the same key, then HMAC collides. */
  lemma HandleIsBound(c: Crypto, deviceKey: seq<byte>, m: seq<byte>, m': seq<byte>)
    requires |m| == |m'| == 7609 && KnownHandle(c, deviceKey, m)
    requires m'[39..71] != m[39..71] || m'[104..136] != m[104..136]
    ensures m'[72..104] == m[72..104] && KnownHandle(c, deviceKey, m') ==> Collides(c, deviceKey)
    ensures var key := PrivateKey(c, deviceKey, m[39..71], m[104..136]);
      PrivateKey(c, deviceKey, m'[39..71], m'[104..136]) == key ==> Collides(c, deviceKey)
  {
    var app, app', nonce, nonce' := m[39..71], m'[39..71], m[104..136], m'[104..136];
    Apart(app, app', nonce, nonce');
    if PrivateKey(c, deviceKey, app, nonce) != PrivateKey(c, deviceKey, app', nonce') {
      Apart(PrivateKey(c, deviceKey, app, nonce), PrivateKey(c, deviceKey, app', nonce'), app, app');
    }
  }

  lemma Apart(a: seq<byte>, a': seq<byte>, b: seq<byte>, b': seq<byte>)
    requires |a| == |a'| && |b| == |b'| && (a != a' || b != b')
    ensures a + b != a' + b'
  {
    assert (a + b)[..|a|] == a && (a + b)[|a|..] == b;
    assert (a' + b')[..|a|] == a' && (a' + b')[|a|..] == b';
  }

  /** Enrolment and use: the application that sends back the handle it was given, with any later challenge,
      gets an assertion signed by the private half of the public key it was given. */
  lemma EnrolledKeySigns(c: Crypto, deviceKey: seq<byte>, certKey: seq<byte>, cert: seq<byte>, m: seq<byte>,
                         nonce: seq<byte>, random: seq<byte>, m': seq<byte>, flags: byte, counter: uint32,
                         random': seq<byte>)
    returns (key: seq<byte>)
    requires Sound(c) && |m| == |m'| == 7609 && |nonce| == 32 && flags < 2
    requires var answer := RegisterReply(c, deviceKey, certKey, cert, m, nonce, random);
      |answer| >= 131 && m'[71..136] == answer[66..131] && m'[39..71] == m[39..71]
    ensures KnownHandle(c, deviceKey, m')
    ensures RegisterReply(c, deviceKey, certKey, cert, m, nonce, random)[1..66] == c.publicKey(key)
    ensures Asserts(c, key, m', random', flags == 1, counter, AuthReply(c, deviceKey, counter, flags, m', random'))
  {
    key := PrivateKey(c, deviceKey, m'[39..71], m'[104..136]);
    IssuedHandleIsKnown(c, deviceKey, certKey, cert, m, nonce, random,
                        RegisterReply(c, deviceKey, certKey, cert, m, nonce, random), m');
    AuthenticationAsserts(c, deviceKey, counter, flags, m', random');
  }
}
