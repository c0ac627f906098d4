/** The crypto manager: session-key creation and resolution, and the Encrypt
    and Decrypt operations over the operation record `Obj`.

    The settings and the library primitives are passed explicitly in an `Env`;
    clock readings are parameters. Each operation comes twice: a function
    (`EncryptOutcome`, `DecryptOutcome`) that states what the call ends with,
    and a method on `CryptoManager` that changes an `Obj` step by step as the
    source does and is proved to end in that state. */
module Crypto {
  import opened Wrappers
  import opened Clock
  import opened Platform

  /** The Crypto section of the settings: the master passphrase, salt and IV. */
  datatype CryptoSettings = CryptoSettings(passphrase: string, salt: string, initVector: string)

  datatype Env = Env(settings: CryptoSettings, prims: Primitives)

  /** How a call ends: it returns its boolean with the failure reason it set,
      or an exception thrown by a library call escapes it. */
  datatype Status = Returned(ok: bool, failureReason: string) | Threw

  const Succeeded := Returned(true, "")

  const KeyGenerationFailed := "Unable to generate session key and KSN."
  const EmptyCipherAfterEncryption := "Null value for cipher after encryption."
  const SessionKeyUnavailable := "Unable to derive session key."
  const EmptyClearAfterDecryption := "Null value for cleartext after decryption."

  /** The fields of an `Obj` at one moment (None stands for null). */
  datatype ObjValue = ObjValue(
    clear: Option<Bytes>,
    cipher: Option<Bytes>,
    passphrase: Option<string>,
    salt: Option<string>,
    initVector: Option<string>,
    ksn: Option<string>,
    sessionKey: Option<string>,
    startTime: Option<DateTime>,
    endTime: Option<DateTime>)

  const EmptyObj := ObjValue(None, None, None, None, None, None, None, None, None)

  /** No passphrase, salt, IV or session key is left in the record. */
  predicate SecretsCleared(o: ObjValue)
  {
    o.passphrase.None? && o.salt.None? && o.initVector.None? && o.sessionKey.None?
  }

  /** The operation record: clear and cipher data with the key material and
      metadata of one Encrypt or Decrypt call. */
  class Obj {
    var clear: Option<Bytes>
    var cipher: Option<Bytes>
    var passphrase: Option<string>
    var salt: Option<string>
    var initVector: Option<string>
    var ksn: Option<string>
    var sessionKey: Option<string>
    var startTime: Option<DateTime>
    var endTime: Option<DateTime>

    constructor()
      ensures Value() == EmptyObj
    {
      clear, cipher := None, None;
      passphrase, salt, initVector := None, None, None;
      ksn, sessionKey := None, None;
      startTime, endTime := None, None;
    }

    function Value(): ObjValue
      reads this
    {
      ObjValue(clear, cipher, passphrase, salt, initVector, ksn, sessionKey, startTime, endTime)
    }
  }

  // ---------------------------------------------------------------------
  // Internal transforms

  /** The smaller of two counts: how many bytes one Read delivers. */
  function Min(a: int, b: int): int
  {
    if a <= b then a else b
  }

  /** The encryptor, keyed by the passphrase with the salt and IV of the
      settings. Under the library hypotheses its cipher text is never empty
      and DecryptInternal under the same passphrase gives the clear text back. */
  function EncryptInternal(env: Env, clear: Bytes, passphrase: string): (r: Option<Bytes>)
    ensures Sound(env.prims) && r.Some? ==> |r.value| > 0
    ensures Sound(env.prims) && r.Some? ==> DecryptedPrefix(env, r.value, passphrase) == Some(clear)
  {
    var r := env.prims.encrypt(clear, passphrase, env.settings.salt, env.settings.initVector);
    assert Sound(env.prims) && r.Some? ==>
      env.prims.decrypt(r.value, passphrase, env.settings.salt, env.settings.initVector) == Some(clear)
      && |clear| <= |r.value|
      && clear[..Min(|clear|, |r.value|)] == clear;
    r
  }

  /** What DecryptInternal returns: the decrypting stream is read into a
      buffer as long as the cipher text, and the bytes read are copied out. */
  function DecryptedPrefix(env: Env, cipher: Bytes, passphrase: string): (r: Option<Bytes>)
    ensures r.None? <==> env.prims.decrypt(cipher, passphrase, env.settings.salt, env.settings.initVector).None?
    ensures r.Some? ==> |r.value| <= |cipher|
    ensures r.Some? ==>
      var whole := env.prims.decrypt(cipher, passphrase, env.settings.salt, env.settings.initVector).value;
      |r.value| <= |whole| && r.value == whole[..|r.value|] && (|r.value| == |whole| || |r.value| == |cipher|)
  {
    match env.prims.decrypt(cipher, passphrase, env.settings.salt, env.settings.initVector)
    case None => None
    case Some(p) => Some(p[..Min(|p|, |cipher|)])
  }

  // ---------------------------------------------------------------------
  // Session keys

  /** DateTime.ToString("MMddyyyyhhmmssff"): month, day, four-digit year,
      hour on the 12-hour clock, minute, second, hundredths. */
  function SessionKeyText(now: DateTime): (key: string)
    ensures |key| == 16
    ensures IsDigits(key)
  {
    PadDigits(now.month, 2) + PadDigits(now.day, 2) + PadDigits(now.year, 4)
    + PadDigits(Hour12(now.hour), 2) + PadDigits(now.minute, 2) + PadDigits(now.second, 2)
    + PadDigits(Hundredths(now.millisecond), 2)
  }

  /** The outputs of CreateSessionKey: its boolean result and its two out
      parameters. */
  datatype CreatedKey = CreatedKey(created: bool, sessionKey: string, ksn: string)

  /** The session key is the formatted clock reading; the KSN is that key's
      UTF-8 bytes encrypted under the master passphrase, in base64. None when
      the encryptor throws. */
  function CreateSessionKey(env: Env, now: DateTime): (r: Option<CreatedKey>)
    ensures r.Some? <==> EncryptInternal(env, env.prims.utf8Encode(SessionKeyText(now)), env.settings.passphrase).Some?
    ensures r.Some? ==> r.value.created
    ensures r.Some? ==> |r.value.sessionKey| == 16 && IsDigits(r.value.sessionKey)
    ensures r.Some? ==> r.value.sessionKey == SessionKeyText(now)
    ensures r.Some? ==> r.value.ksn == env.prims.toBase64(
      EncryptInternal(env, env.prims.utf8Encode(r.value.sessionKey), env.settings.passphrase).value)
  {
    var sessionKey := SessionKeyText(now);
    match EncryptInternal(env, env.prims.utf8Encode(sessionKey), env.settings.passphrase)
    case None => None
    case Some(ksnBytes) => Some(CreatedKey(true, sessionKey, env.prims.toBase64(ksnBytes)))
  }

  /** The text a non-empty KSN decodes to: base64-decoded, decrypted under the
      master passphrase, read as UTF-8. None when a library call throws. */
  function KsnText(env: Env, ksn: string): Option<string>
  {
    match env.prims.fromBase64(ksn)
    case None => None
    case Some(ksnBytes) =>
      match DecryptedPrefix(env, ksnBytes, env.settings.passphrase)
      case None => None
      case Some(keyBytes) => Some(env.prims.utf8Decode(keyBytes))
  }

  /** The outputs of GetSessionKey: its boolean result and its out parameter. */
  datatype ResolvedKey = ResolvedKey(found: bool, sessionKey: string)

  predicate NullOrEmpty(s: Option<string>)
  {
    s.None? || s.value == ""
  }

  /** A KSN yields a session key exactly when it is non-empty and decodes to a
      text of exactly 16 characters; otherwise the key is "". None when a
      library call throws. */
  function GetSessionKey(env: Env, ksn: Option<string>): (r: Option<ResolvedKey>)
    ensures NullOrEmpty(ksn) ==> r == Some(ResolvedKey(false, ""))
    ensures !NullOrEmpty(ksn) ==> (r.None? <==> KsnText(env, ksn.value).None?)
    ensures r.Some? ==> (r.value.found <==> !NullOrEmpty(ksn) && |KsnText(env, ksn.value).value| == 16)
    ensures r.Some? && r.value.found ==> r.value.sessionKey == KsnText(env, ksn.value).value
    ensures r.Some? && r.value.found ==> |r.value.sessionKey| == 16
    ensures r.Some? && !r.value.found ==> r.value.sessionKey == ""
  {
    if NullOrEmpty(ksn) then Some(ResolvedKey(false, ""))
    else
      match KsnText(env, ksn.value)
      case None => None
      case Some(sessionKey) =>
        if sessionKey != "" then
          if |sessionKey| == 16 then Some(ResolvedKey(true, sessionKey))
          else Some(ResolvedKey(false, ""))
        else Some(ResolvedKey(false, ""))
  }

  // ---------------------------------------------------------------------
  // Encrypt and Decrypt, as the state each call ends in

  datatype EncryptResult = EncryptResult(status: Status, record: ObjValue)

  /** Encrypt(data): the returned status and record, given the clock readings
      at the start, in CreateSessionKey and at the end. */
  function EncryptOutcome(env: Env, data: Bytes, startTime: DateTime, keyTime: DateTime, endTime: DateTime): (o: EncryptResult)
    // the session key can always be generated, so this reason never occurs
    ensures o.status != Returned(false, KeyGenerationFailed)
    ensures o.status == Threw || o.status == Succeeded || o.status == Returned(false, EmptyCipherAfterEncryption)
    ensures o.status == Threw <==>
      CreateSessionKey(env, keyTime).None? ||
      EncryptInternal(env, data, CreateSessionKey(env, keyTime).value.sessionKey).None?
    // success: only the cipher text, the KSN and the times are left
    ensures o.status == Succeeded ==>
      && SecretsCleared(o.record) && o.record.clear.None?
      && o.record.cipher.Some? && |o.record.cipher.value| > 0
      && o.record.cipher == EncryptInternal(env, data, SessionKeyText(keyTime))
      && o.record.ksn == Some(CreateSessionKey(env, keyTime).value.ksn)
      && o.record.startTime == Some(startTime) && o.record.endTime == Some(endTime)
    // an empty cipher text fails before the record is scrubbed
    ensures o.status == Returned(false, EmptyCipherAfterEncryption) <==>
      o.status != Threw && |EncryptInternal(env, data, CreateSessionKey(env, keyTime).value.sessionKey).value| == 0
    ensures o.status == Returned(false, EmptyCipherAfterEncryption) ==>
      && o.record.clear == Some(data)
      && o.record.sessionKey == Some(SessionKeyText(keyTime))
      && o.record.cipher == Some([])
    ensures o.record.passphrase.None? && o.record.salt.None? && o.record.initVector.None?
  {
    var r0 := EmptyObj.(startTime := Some(startTime), clear := Some(data));
    match CreateSessionKey(env, keyTime)
    case None => EncryptResult(Threw, r0)
    case Some(k) =>
      if !k.created then EncryptResult(Returned(false, KeyGenerationFailed), r0)
      else
        var r1 := r0.(sessionKey := Some(k.sessionKey), ksn := Some(k.ksn));
        match EncryptInternal(env, data, k.sessionKey)
        case None => EncryptResult(Threw, r1)
        case Some(c) =>
          var r2 := r1.(cipher := Some(c), endTime := Some(endTime));
          if |c| < 1 then EncryptResult(Returned(false, EmptyCipherAfterEncryption), r2)
          else EncryptResult(Succeeded, r2.(clear := None, passphrase := None, salt := None,
                                            initVector := None, sessionKey := None))
  }

  datatype DecryptResult = DecryptResult(status: Status, clear: Option<Bytes>, record: ObjValue)

  /** Decrypt(req): the returned status and clear text and the final state of
      the request record, given its initial state and the clock readings. */
  function DecryptOutcome(env: Env, req: ObjValue, startTime: DateTime, endTime: DateTime): (o: DecryptResult)
    ensures o.status != Returned(false, KeyGenerationFailed) && o.status != Returned(false, EmptyCipherAfterEncryption)
    // the key material always comes from the settings, never from the request
    ensures o.status != Succeeded ==>
      && o.record.passphrase == Some(env.settings.passphrase)
      && o.record.salt == Some(env.settings.salt)
      && o.record.initVector == Some(env.settings.initVector)
    // a KSN that GetSessionKey rejects
    ensures (GetSessionKey(env, req.ksn).Some? && !GetSessionKey(env, req.ksn).value.found) <==>
      o.status == Returned(false, SessionKeyUnavailable)
    ensures NullOrEmpty(req.ksn) ==> o.status == Returned(false, SessionKeyUnavailable)
    ensures o.status == Returned(false, SessionKeyUnavailable) ==> o.record.sessionKey == req.sessionKey
    // a clear text is returned only on success, and it is never empty
    ensures o.clear.Some? <==> o.status == Succeeded
    ensures o.status == Succeeded ==>
      && |o.clear.value| > 0
      && o.clear == o.record.clear
      && req.cipher.Some? && GetSessionKey(env, req.ksn).Some?
      && o.clear == DecryptedPrefix(env, req.cipher.value, GetSessionKey(env, req.ksn).value.sessionKey)
      && SecretsCleared(o.record) && o.record.cipher.None? && o.record.ksn.None?
    ensures o.status == Returned(false, EmptyClearAfterDecryption) ==>
      o.record.clear == Some([]) && o.record.sessionKey.Some?
    // every way the call can end, and when each happens
    ensures || o.status == Threw || o.status == Succeeded
            || o.status == Returned(false, SessionKeyUnavailable)
            || o.status == Returned(false, EmptyClearAfterDecryption)
    ensures o.status == Threw <==>
      || GetSessionKey(env, req.ksn).None?
      || (GetSessionKey(env, req.ksn).value.found &&
          (req.cipher.None? ||
           DecryptedPrefix(env, req.cipher.value, GetSessionKey(env, req.ksn).value.sessionKey).None?))
    ensures GetSessionKey(env, req.ksn).Some? && GetSessionKey(env, req.ksn).value.found && req.cipher.Some? ==>
      var clear := DecryptedPrefix(env, req.cipher.value, GetSessionKey(env, req.ksn).value.sessionKey);
      && (clear == Some([]) <==> o.status == Returned(false, EmptyClearAfterDecryption))
      && (clear.Some? && |clear.value| > 0 <==> o.status == Succeeded)
  {
    var r0 := req.(passphrase := Some(env.settings.passphrase),
                   initVector := Some(env.settings.initVector),
                   salt := Some(env.settings.salt),
                   startTime := Some(startTime));
    match GetSessionKey(env, req.ksn)
    case None => DecryptResult(Threw, None, r0)
    case Some(k) =>
      if !k.found then DecryptResult(Returned(false, SessionKeyUnavailable), None, r0)
      else
        var r1 := r0.(sessionKey := Some(k.sessionKey));
        if req.cipher.None? then DecryptResult(Threw, None, r1)
        else
          match DecryptedPrefix(env, req.cipher.value, k.sessionKey)
          case None => DecryptResult(Threw, None, r1)
          case Some(p) =>
            var r2 := r1.(clear := Some(p), endTime := Some(endTime));
            if |p| < 1 then DecryptResult(Returned(false, EmptyClearAfterDecryption), None, r2)
            else DecryptResult(Succeeded, Some(p),
                               r2.(cipher := None, passphrase := None, salt := None,
                                   initVector := None, sessionKey := None, ksn := None))
  }

  // ---------------------------------------------------------------------
  // The crypto manager

  class CryptoManager {
    const env: Env

    constructor(settings: CryptoSettings, prims: Primitives)
      ensures env == Env(settings, prims)
    {
      env := Env(settings, prims);
    }

    method Encrypt(data: Bytes, startTime: DateTime, keyTime: DateTime, endTime: DateTime)
      returns (status: Status, ret: Obj)
      ensures fresh(ret)
      ensures EncryptResult(status, ret.Value()) == EncryptOutcome(env, data, startTime, keyTime, endTime)
    {
      ret := new Obj();
      status := Succeeded;
      ret.startTime := Some(startTime);
      ret.clear := Some(data);
      ghost var o := EncryptOutcome(env, data, startTime, keyTime, endTime);
      ghost var r0 := EmptyObj.(startTime := Some(startTime), clear := Some(data));
      assert ret.Value() == r0;

      var created := CreateSessionKey(env, keyTime);
      if created.None? {
        status := Threw;
        assert o == EncryptResult(status, r0);
        return;
      }
      var k := created.value;
      if !k.created {
        // CreateSessionKey always reports success
        assert false;
        status := Returned(false, KeyGenerationFailed);
        return;
      }
      ret.sessionKey := Some(k.sessionKey);
      ret.ksn := Some(k.ksn);
      ghost var r1 := r0.(sessionKey := Some(k.sessionKey), ksn := Some(k.ksn));
      assert ret.Value() == r1;

      var cipher := EncryptInternal(env, ret.clear.value, ret.sessionKey.value);
      if cipher.None? {
        status := Threw;
        assert o == EncryptResult(status, r1);
        return;
      }
      ret.cipher := cipher;
      ret.endTime := Some(endTime);
      ghost var r2 := r1.(cipher := cipher, endTime := Some(endTime));
      assert ret.Value() == r2;

      if |ret.cipher.value| < 1 {
        status := Returned(false, EmptyCipherAfterEncryption);
        assert o == EncryptResult(status, r2);
        return;
      }

      ret.clear := None;
      ret.passphrase := None;
      ret.salt := None;
      ret.initVector := None;
      ret.sessionKey := None;
      status := Succeeded;
      ghost var r3 := r2.(clear := None, passphrase := None, salt := None,
                          initVector := None, sessionKey := None);
      assert ret.Value() == r3;
      assert o == EncryptResult(status, r3);
    }

    method Decrypt(req: Obj, startTime: DateTime, endTime: DateTime)
      returns (status: Status, ret: Option<Bytes>)
      modifies req
      ensures DecryptResult(status, ret, req.Value()) == DecryptOutcome(env, old(req.Value()), startTime, endTime)
    {
      status := Succeeded;
      ret := None;

      req.passphrase := Some(env.settings.passphrase);
      req.initVector := Some(env.settings.initVector);
      req.salt := Some(env.settings.salt);
      req.startTime := Some(startTime);

      var resolved := GetSessionKey(env, req.ksn);
      if resolved.None? {
        status := Threw;
        return;
      }
      if !resolved.value.found {
        status := Returned(false, SessionKeyUnavailable);
        return;
      }
      req.sessionKey := Some(resolved.value.sessionKey);

      if req.cipher.None? {
        // a null cipher makes the decrypting stream throw
        status := Threw;
        return;
      }
      var clear := DecryptInternal(req.cipher.value, req.sessionKey.value);
      if clear.None? {
        status := Threw;
        return;
      }
      req.clear := clear;
      req.endTime := Some(endTime);

      if |req.clear.value| < 1 {
        status := Returned(false, EmptyClearAfterDecryption);
        return;
      }

      req.cipher := None;
      req.passphrase := None;
      req.salt := None;
      req.initVector := None;
      req.sessionKey := None;
      req.ksn := None;

      ret := req.clear;
      status := Succeeded;
    }

    /** Decrypts into a buffer as long as the cipher text and returns a copy of
        the bytes the stream delivered. */
    method DecryptInternal(cipher: Bytes, passphrase: string) returns (r: Option<Bytes>)
      ensures r == DecryptedPrefix(env, cipher, passphrase)
      ensures r.None? <==> env.prims.decrypt(cipher, passphrase, env.settings.salt, env.settings.initVector).None?
      ensures r.Some? ==> |r.value| <= |cipher|
      ensures r.Some? ==>
        var whole := env.prims.decrypt(cipher, passphrase, env.settings.salt, env.settings.initVector).value;
        r.value == whole[..|r.value|] && (|r.value| == |whole| || |r.value| == |cipher|)
    {
      var stream := env.prims.decrypt(cipher, passphrase, env.settings.salt, env.settings.initVector);
      if stream.None? {
        return None;
      }
      var plainTextBytes := new byte[|cipher|];
      var decryptedByteCount := ReadStream(stream.value, plainTextBytes);
      var ret := new byte[decryptedByteCount];
      BlockCopy(plainTextBytes, ret, decryptedByteCount);
      assert ret[..] == ret[..decryptedByteCount];
      r := Some(ret[..]);
    }
  }

  /** CryptoStream.Read(buffer, 0, buffer.Length): delivers as many bytes of
      the clear text as fit and returns their number. */
  method ReadStream(clear: Bytes, buffer: array<byte>) returns (count: nat)
    modifies buffer
    ensures count == Min(|clear|, buffer.Length)
    ensures buffer[..count] == clear[..count]
  {
    count := Min(|clear|, buffer.Length);
    forall i | 0 <= i < count {
      buffer[i] := clear[i];
    }
  }

  /** Buffer.BlockCopy(src, 0, dst, 0, count). */
  method BlockCopy(src: array<byte>, dst: array<byte>, count: nat)
    requires count <= src.Length && count <= dst.Length
    requires src != dst
    modifies dst
    ensures dst[..count] == old(src[..count])
    ensures dst[count..] == old(dst[count..])
  {
    forall i | 0 <= i < count {
      dst[i] := src[i];
    }
  }
}
