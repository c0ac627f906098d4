/** Properties that relate several crypto-manager operations: the KSN and
    payload round trips under the library hypotheses of `Platform.Sound`, the
    rejection of empty payloads, and what the session-key format can and
    cannot tell apart. */
module CryptoProperties {
  import opened Wrappers
  import opened Clock
  import opened Platform
  import opened Crypto

  lemma DigitsAreAscii(s: string)
    requires IsDigits(s)
    ensures IsAscii(s)
  {
  }

  /** Decoding a KSN inverts its encoding: the base64 of an ASCII key's UTF-8
      bytes, encrypted under the master passphrase, decodes to that key. */
  lemma KsnTextInverts(env: Env, key: string)
    requires Sound(env.prims) && IsAscii(key)
    requires EncryptInternal(env, env.prims.utf8Encode(key), env.settings.passphrase).Some?
    ensures KsnText(env, env.prims.toBase64(EncryptInternal(env, env.prims.utf8Encode(key), env.settings.passphrase).value))
            == Some(key)
  {
  }

  /** The KSN CreateSessionKey makes resolves, through GetSessionKey, to the
      session key it was made from. */
  lemma KsnRoundTrip(env: Env, now: DateTime)
    requires Sound(env.prims)
    requires CreateSessionKey(env, now).Some?
    ensures GetSessionKey(env, Some(CreateSessionKey(env, now).value.ksn))
            == Some(ResolvedKey(true, CreateSessionKey(env, now).value.sessionKey))
  {
    var k := CreateSessionKey(env, now).value;
    var keyBytes := env.prims.utf8Encode(k.sessionKey);
    var ksnBytes := EncryptInternal(env, keyBytes, env.settings.passphrase).value;
    assert |ksnBytes| > 0;
    assert k.ksn != "";
    assert env.prims.fromBase64(k.ksn) == Some(ksnBytes);
    DigitsAreAscii(k.sessionKey);
    KsnTextInverts(env, k.sessionKey);
  }

  /** Decrypt applied to the cipher text and KSN of a successful Encrypt
      returns the original data when it is not empty, whatever else the
      request record holds. */
  lemma RoundTrip(env: Env, data: Bytes, startTime: DateTime, keyTime: DateTime, endTime: DateTime,
                  encrypted: EncryptResult, req: ObjValue, decryptStart: DateTime, decryptEnd: DateTime)
    requires Sound(env.prims)
    requires |data| > 0
    requires encrypted == EncryptOutcome(env, data, startTime, keyTime, endTime)
    requires encrypted.status == Succeeded
    requires req.cipher == encrypted.record.cipher && req.ksn == encrypted.record.ksn
    ensures DecryptOutcome(env, req, decryptStart, decryptEnd).status == Succeeded
    ensures DecryptOutcome(env, req, decryptStart, decryptEnd).clear == Some(data)
  {
    var k := CreateSessionKey(env, keyTime).value;
    KsnRoundTrip(env, keyTime);
  }

  /** An empty payload does not round-trip: Encrypt accepts it (its cipher
      text is a padding block) but Decrypt of that cipher text and KSN fails
      with the empty-cleartext reason. */
  lemma EmptyPayloadRejected(env: Env, startTime: DateTime, keyTime: DateTime, endTime: DateTime,
                             req: ObjValue, decryptStart: DateTime, decryptEnd: DateTime)
    requires Sound(env.prims)
    requires EncryptOutcome(env, [], startTime, keyTime, endTime).status != Threw
    requires req.cipher == EncryptOutcome(env, [], startTime, keyTime, endTime).record.cipher
    requires req.ksn == EncryptOutcome(env, [], startTime, keyTime, endTime).record.ksn
    ensures EncryptOutcome(env, [], startTime, keyTime, endTime).status == Succeeded
    ensures DecryptOutcome(env, req, decryptStart, decryptEnd).status == Returned(false, EmptyClearAfterDecryption)
    ensures DecryptOutcome(env, req, decryptStart, decryptEnd).clear.None?
  {
    var k := CreateSessionKey(env, keyTime).value;
    KsnRoundTrip(env, keyTime);
  }

  /** The outcome of Decrypt depends on the request only through its cipher
      text and KSN: the passphrase, salt and IV it carries are overwritten. */
  lemma DecryptIgnoresSuppliedSecrets(env: Env, a: ObjValue, b: ObjValue, startTime: DateTime, endTime: DateTime)
    requires a.cipher == b.cipher && a.ksn == b.ksn
    ensures DecryptOutcome(env, a, startTime, endTime).status == DecryptOutcome(env, b, startTime, endTime).status
    ensures DecryptOutcome(env, a, startTime, endTime).clear == DecryptOutcome(env, b, startTime, endTime).clear
  {
  }

  // ---------------------------------------------------------------------
  // What the session-key format distinguishes

  lemma PadDigitsInjective(a: nat, b: nat, width: nat)
    requires a < Pow10(width) && b < Pow10(width)
    requires PadDigits(a, width) == PadDigits(b, width)
    ensures a == b
  {
    assert DigitsValue(PadDigits(a, width)) == a;
  }

  /** Two clock readings give the same session key exactly when they agree on
      the date, the hour on the 12-hour clock, the minute, the second and the
      hundredths. */
  predicate SameKeyFields(a: DateTime, b: DateTime)
  {
    && a.month == b.month && a.day == b.day && a.year == b.year
    && Hour12(a.hour) == Hour12(b.hour) && a.minute == b.minute && a.second == b.second
    && Hundredths(a.millisecond) == Hundredths(b.millisecond)
  }

  lemma SessionKeyFields(t: DateTime)
    ensures SessionKeyText(t)[0..2] == PadDigits(t.month, 2)
    ensures SessionKeyText(t)[2..4] == PadDigits(t.day, 2)
    ensures SessionKeyText(t)[4..8] == PadDigits(t.year, 4)
    ensures SessionKeyText(t)[8..10] == PadDigits(Hour12(t.hour), 2)
    ensures SessionKeyText(t)[10..12] == PadDigits(t.minute, 2)
    ensures SessionKeyText(t)[12..14] == PadDigits(t.second, 2)
    ensures SessionKeyText(t)[14..16] == PadDigits(Hundredths(t.millisecond), 2)
  {
    var mm, dd, yyyy := PadDigits(t.month, 2), PadDigits(t.day, 2), PadDigits(t.year, 4);
    var hh, mi, ss := PadDigits(Hour12(t.hour), 2), PadDigits(t.minute, 2), PadDigits(t.second, 2);
    var ff := PadDigits(Hundredths(t.millisecond), 2);
    var key := SessionKeyText(t);
    assert key == mm + dd + yyyy + hh + mi + ss + ff;
    assert key[0..2] == mm;
    assert key[2..4] == dd;
    assert key[4..8] == yyyy;
    assert key[8..10] == hh;
    assert key[10..12] == mi;
    assert key[12..14] == ss;
    assert key[14..16] == ff;
  }

  lemma SessionKeyCollision(a: DateTime, b: DateTime)
    ensures SessionKeyText(a) == SessionKeyText(b) <==> SameKeyFields(a, b)
  {
    if SessionKeyText(a) == SessionKeyText(b) {
      SessionKeyFields(a);
      SessionKeyFields(b);
      assert Pow10(2) == 100 && Pow10(4) == 10000;
      PadDigitsInjective(a.month, b.month, 2);
      PadDigitsInjective(a.day, b.day, 2);
      PadDigitsInjective(a.year, b.year, 4);
      PadDigitsInjective(Hour12(a.hour), Hour12(b.hour), 2);
      PadDigitsInjective(a.minute, b.minute, 2);
      PadDigitsInjective(a.second, b.second, 2);
      PadDigitsInjective(Hundredths(a.millisecond), Hundredths(b.millisecond), 2);
    }
  }

  /** Because "hh" is the 12-hour clock and the format prints no AM/PM
      designator, readings twelve hours apart give the same session key. */
  lemma TwelveHoursApartCollide(t: DateTime)
    requires t.hour < 12
    ensures SessionKeyText(t) == SessionKeyText(t.(hour := t.hour + 12))
  {
    var later: DateTime := t.(hour := t.hour + 12);
    assert (t.hour + 12) % 12 == t.hour % 12 == t.hour;
    assert Hour12(later.hour) == Hour12(t.hour);
    SessionKeyCollision(t, later);
  }
}
