# CryptoServer core in Dafny

A model of the two stateful components of CryptoServer, an HTTP encryption
service. The first is the crypto manager. Encrypt builds a per-call session key
from the clock. It wraps that key as a KSN (key serial number): the key encrypted
under the master passphrase, in base64. The payload is then encrypted under the
session key, and the secrets are scrubbed from the returned `Obj` record. Decrypt
resolves the KSN back to the session key, decrypts, and scrubs the request
record. The second component is the connection registry: a list of in-flight
requests with Add, Close, Update and GetActiveConnections.

Files and modules:

- `wrappers.dfy` (`Wrappers`): `Option`. `None` stands for a null reference,
  or for a library call that throws.
- `clock.dfy` (`Clock`): `DateTime` as calendar fields, and the zero-padded
  digits that .NET custom format strings print.
- `platform.dfy` (`Platform`): bytes, and the library primitives as function
  values in a `Primitives` record. These are the Rijndael/PBKDF1 cipher
  transform, base64 and UTF-8. `Sound(p)` collects what the model assumes about
  them:
  - decryption inverts encryption under the same passphrase, salt and IV;
  - a cipher text is never empty;
  - a clear text is never longer than its cipher text;
  - base64 decoding inverts encoding, and non-empty bytes encode to a non-empty string;
  - UTF-8 decoding inverts encoding on ASCII text.

  `SoundIsSatisfiable` shows these hypotheses are consistent. Every lemma that
  needs them requires `Sound`.
- `crypto.dfy` (`Crypto`): the `Obj` class, `CreateSessionKey`, `GetSessionKey`,
  and the `CryptoManager` class. Its `Encrypt` and `Decrypt` methods change an
  `Obj` field by field. Each is proved to end in the state that the functions
  `EncryptOutcome` and `DecryptOutcome` describe. `DecryptInternal` keeps the
  source's buffer step on arrays: it reads into a buffer as long as the cipher
  text, then block-copies the prefix that was read.
- `crypto_properties.dfy` (`CryptoProperties`): the KSN and payload round trips,
  the rejection of empty payloads, and what the session-key format can and
  cannot tell apart.
- `connections.dfy` (`Connections`): `Connection` records and the
  `ConnectionManager` class over a `seq<Connection>`.
- `connection_properties.dfy` (`ConnectionProperties`): how Close, Add and
  Update relate, order and count facts, and uniqueness of thread ids.

A call that ends with an escaping exception has the status `Threw`. This
covers a malformed base64 KSN, a decryption failure and a null `Cipher`.
The source's clock values `DateTime.Now` are parameters: `startTime`,
`keyTime` (the reading inside CreateSessionKey) and `endTime`.

## Where the code falls short of its evident intent (the model follows the code)

- An empty payload does not round-trip. Encrypt accepts it and produces a
  padding block. Decrypt then fails with "Null value for cleartext after
  decryption." (`EmptyPayloadRejected`). So Encrypt reports success for a
  payload whose cipher text Decrypt then refuses.
- Records are not always scrubbed on failure. Encrypt's empty-cipher failure
  returns before the scrub, so the record keeps `Clear` and `SessionKey`.
  Decrypt's failure paths leave the settings' passphrase, salt and IV in the
  request record, and its empty-cleartext failure also leaves the resolved
  session key there. Only the success paths clear the secrets, so a failed
  call hands them back to its caller.
- The session key is formatted with hundredths ("ff") and with the 12-hour
  clock ("hh") without an AM/PM marker. So two readings twelve hours apart,
  or within the same hundredth of a second, give the same key
  (`SessionKeyCollision`, `TwelveHoursApartCollide`).
- GetSessionKey reports a bad KSN through its boolean result only when the
  KSN is null or empty, or decodes to text that is not 16 characters long.
  A KSN that is not valid base64, or that does not decrypt under the master
  passphrase, makes Decrypt throw instead of failing with "Unable to derive
  session key.".
- The registry's Update moves only the first record of a thread, as if a
  thread had at most one, but nothing keeps thread ids unique. Add does not check for
  duplicates (`AddDoesNotDeduplicate`); it keeps them unique only when the
  thread has no record yet (`AddKeepsUniqueIff`).

## Model

| member | source | states |
|---|---|---|
| `Clock.PadDigits` | CryptoServer/Classes/CryptoManager.cs:164 | a numeric field printed in exactly `width` decimal digits, whose decimal value is the field |
| `Clock.Hour12` | CryptoServer/Classes/CryptoManager.cs:164 | "hh" prints the hour on the 12-hour clock, 1 to 12, congruent to the hour mod 12 |
| `Clock.Hundredths` | CryptoServer/Classes/CryptoManager.cs:164 | "ff" prints the truncated hundredths of the second |
| `Crypto.EncryptInternal` | CryptoServer/Classes/CryptoManager.cs:203-255 | the encryptor keyed by the passphrase with the settings' salt and IV; under the library hypotheses its cipher text is never empty and DecryptInternal under the same passphrase returns exactly the clear text |
| `Crypto.DecryptedPrefix` | CryptoServer/Classes/CryptoManager.cs:257-314 | throws exactly when the decryptor does; otherwise the first bytes of the decrypted stream, no longer than the cipher text, and either the whole clear text or as long as the cipher text |
| `Crypto.SessionKeyText` | CryptoServer/Classes/CryptoManager.cs:164 | the "MMddyyyyhhmmssff" session key is always 16 decimal digits |
| `Crypto.CreateSessionKey` | CryptoServer/Classes/CryptoManager.cs:158-168 | unless the encryptor throws, it returns true with the 16-digit formatted key, and the KSN is the base64 of that key's UTF-8 bytes encrypted under the master passphrase |
| `Crypto.GetSessionKey` | CryptoServer/Classes/CryptoManager.cs:170-201 | a null or empty KSN gives false with key ""; otherwise it throws exactly when decoding or decryption throws; it returns true exactly when the decoded text has length 16, with that text as key, and otherwise false with key "" |
| `Crypto.EncryptOutcome` | CryptoServer/Classes/CryptoManager.cs:55-97 | the key-generation failure never occurs. On success the record holds only a non-empty cipher text, the KSN from CreateSessionKey and the times; clear text, passphrase, salt, IV and session key are null. "Null value for cipher after encryption." is returned exactly when the cipher text is empty, and then the record still holds the data and the session key |
| `Crypto.DecryptOutcome` | CryptoServer/Classes/CryptoManager.cs:106-152 | the call ends in one of four ways: it throws, succeeds, or fails with one of two reasons. It throws exactly when key resolution throws, or the key is found and the cipher is null or decryption throws. Passphrase, salt and IV come from the settings. A null or empty KSN, or any KSN GetSessionKey rejects, gives "Unable to derive session key." with no result. Once the key is found, an empty decrypted text gives "Null value for cleartext after decryption." and a non-empty one gives success, in both directions. A result is returned only on success and is never empty; it equals the record's clear text, and cipher, KSN and the secrets are then null |
| `Crypto.Obj.constructor` | CryptoServer/Classes/Obj.cs:12-63 | a new record has every field null |
| `Crypto.CryptoManager.constructor` | CryptoServer/Classes/CryptoManager.cs:35-42 | the manager keeps the settings it is given |
| `Crypto.CryptoManager.Encrypt` | CryptoServer/Classes/CryptoManager.cs:55-97 | setting the fields of a fresh `Obj` step by step ends in exactly the status and record of `EncryptOutcome` |
| `Crypto.CryptoManager.Decrypt` | CryptoServer/Classes/CryptoManager.cs:106-152 | overwriting the request's fields step by step ends in exactly the status, result and record of `DecryptOutcome` for the record's initial state |
| `Crypto.CryptoManager.DecryptInternal` | CryptoServer/Classes/CryptoManager.cs:257-314 | throws exactly when the decryptor does; otherwise the result is the first `decryptedByteCount` bytes of the decrypted stream, no longer than the cipher text, and either the whole clear text or as long as the cipher text |
| `Crypto.ReadStream` | CryptoServer/Classes/CryptoManager.cs:300-305 | the stream delivers as many clear-text bytes as fit in the buffer, and returns their count |
| `Crypto.BlockCopy` | CryptoServer/Classes/CryptoManager.cs:311-312 | the first `count` bytes of the buffer are copied into the result array |
| `CryptoProperties.KsnTextInverts` | CryptoServer/Classes/CryptoManager.cs:165-181 | the KSN decoding of lines 180-181 (base64-decode, decrypt under the master passphrase, read as UTF-8) inverts the encoding: an ASCII key's KSN decodes back to that key |
| `CryptoProperties.KsnRoundTrip` | CryptoServer/Classes/CryptoManager.cs:158-201 | the KSN made by CreateSessionKey resolves through GetSessionKey to the same session key, with result true |
| `CryptoProperties.RoundTrip` | CryptoServer/Classes/CryptoManager.cs:55-152 | Decrypt of a successful Encrypt's cipher text and KSN succeeds and returns the original non-empty data, whatever else the request holds |
| `CryptoProperties.EmptyPayloadRejected` | CryptoServer/Classes/CryptoManager.cs:134-139 | an empty payload that Encrypt accepts comes back from Decrypt as "Null value for cleartext after decryption." |
| `CryptoProperties.DecryptIgnoresSuppliedSecrets` | CryptoServer/Classes/CryptoManager.cs:111-113 | Decrypt's status and result depend on the request only through its cipher text and KSN |
| `CryptoProperties.SessionKeyCollision` | CryptoServer/Classes/CryptoManager.cs:164 | two clock readings give the same session key exactly when they agree on date, 12-hour hour, minute, second and hundredths |
| `CryptoProperties.TwelveHoursApartCollide` | CryptoServer/Classes/CryptoManager.cs:164 | readings twelve hours apart give the same session key |
| `Connections.Without` | CryptoServer/Classes/ConnectionManager.cs:61 | the filtered list has no record of the thread and is shorter by the number of its records |
| `Connections.FirstIndex` | CryptoServer/Classes/ConnectionManager.cs:71 | finds the first record of the thread, or reports that there is none |
| `Connections.Updated` | CryptoServer/Classes/ConnectionManager.cs:71-82 | Update's new list keeps the length; it is unchanged when the thread has no record, and otherwise holds the other records in order with the first record of the thread last, its three routing fields replaced |
| `Connections.RemoveFirst` | CryptoServer/Classes/ConnectionManager.cs:78 | removes one record when the value is present, none otherwise |
| `Connections.RemoveFirstAt` | CryptoServer/Classes/ConnectionManager.cs:71-78 | `Remove` of the record `FirstOrDefault` found removes it at its own position |
| `Connections.ConnectionManager.constructor` | CryptoServer/Classes/ConnectionManager.cs:22-29 | the registry starts empty |
| `Connections.ConnectionManager.Add` | CryptoServer/Classes/ConnectionManager.cs:35-53 | a thread id <= 0 or a null request leaves the list unchanged; otherwise exactly one record with the request's fields, unset routing fields and the two clock readings as start and end time is appended at the end |
| `Connections.ConnectionManager.Close` | CryptoServer/Classes/ConnectionManager.cs:55-63 | a thread id <= 0 is a no-op; otherwise the list becomes the records of other threads |
| `Connections.ConnectionManager.Update` | CryptoServer/Classes/ConnectionManager.cs:65-85 | a thread id <= 0 is a no-op; otherwise the first record of the thread is removed and re-appended with its three routing fields replaced, and the list is unchanged when there is no such record |
| `Connections.ConnectionManager.GetActiveConnections` | CryptoServer/Classes/ConnectionManager.cs:87-97 | the snapshot equals the list in contents and order, and the registry is not modified |
| `ConnectionProperties.WithoutConcat` | CryptoServer/Classes/ConnectionManager.cs:61 | Close keeps the relative order of the records it keeps |
| `ConnectionProperties.WithoutContents` | CryptoServer/Classes/ConnectionManager.cs:61 | Close keeps exactly the records of other threads |
| `ConnectionProperties.WithoutAbsent` | CryptoServer/Classes/ConnectionManager.cs:61 | Close of a thread with no record leaves the list unchanged |
| `ConnectionProperties.CloseIdempotent` | CryptoServer/Classes/ConnectionManager.cs:61 | closing twice is the same as closing once |
| `ConnectionProperties.CloseKeepsOtherThreads` | CryptoServer/Classes/ConnectionManager.cs:61 | Close removes no record of another thread |
| `ConnectionProperties.AddDoesNotDeduplicate` | CryptoServer/Classes/ConnectionManager.cs:35-52 | Add adds one record for its thread even when one exists, and none for any other thread |
| `ConnectionProperties.CloseUndoesAdd` | CryptoServer/Classes/ConnectionManager.cs:35-63 | closing the thread just added gives what closing it before the Add gives |
| `ConnectionProperties.UpdateKeepsCounts` | CryptoServer/Classes/ConnectionManager.cs:71-82 | Update neither adds nor removes a record of any thread |
| `ConnectionProperties.CloseAfterUpdate` | CryptoServer/Classes/ConnectionManager.cs:55-85 | Update touches no record but the one it moves: closing afterwards leaves what closing alone leaves |
| `ConnectionProperties.AddKeepsUniqueIff` | CryptoServer/Classes/ConnectionManager.cs:35-52 | on a list with unique thread ids, Add keeps them unique exactly when the thread has no record yet |
| `ConnectionProperties.CloseKeepsUnique` | CryptoServer/Classes/ConnectionManager.cs:61 | Close keeps thread ids unique |
| `ConnectionProperties.UpdateKeepsUnique` | CryptoServer/Classes/ConnectionManager.cs:71-82 | Update keeps thread ids unique |

## Left out

- Cryptographic primitives. PBKDF1 key derivation with SHA-1 and 2 iterations
  (section 5.1 of RFC 2898, with Microsoft's extension past the hash length),
  Rijndael in CBC mode (section 6.2 of NIST SP 800-38A) with PKCS #7 padding
  (section 10.3 of RFC 2315), base64 (section 4 of RFC 4648) and UTF-8 are
  foreign library calls. They are function parameters, and the facts used about
  them are the hypotheses in `Platform.Sound`.
- A KSN made under a different passphrase is rejected or throws. This cannot be
  proved without a cryptographic model of the cipher, so it is not stated.
- `TotalTimeMs` and `Common.DecimalToString` are left out. They are wall-clock
  arithmetic and decimal formatting, and `Common` is not part of this model.
  The `TotalTimeMs` field is not in `Obj`.
- Clock: `DateTime.Now` readings are parameters. `DateTime` checks field ranges
  but not month lengths.
- Calendar: `DateTime.ToString` prints the fields of the current culture's
  calendar (Thai Buddhist or Hijri, for instance). The `Timestamp` fields are
  the ones that calendar prints, and the model assumes it is the Gregorian one.
- Logging calls are side effects only and are left out.
- The registry's lock only serialises whole operations, so the model is sequential.
- Aliasing is not modelled. `Obj` byte arrays and `Connection` records are
  values. The source shares references in three places: `ret.Clear = data`,
  `ret = req.Clear`, and the snapshot in GetActiveConnections, which is a
  shallow copy of shared `Connection` objects. Update's in-place change of the
  found object shows up in the model only through the list.
- Null inputs are partly modelled. A null `data` argument to Encrypt, a null
  `req` to Decrypt and null settings strings are not modelled; data and
  settings are non-null values. Null `Cipher`, `Ksn` and the other `Obj` fields
  are modelled.
- EncryptInternal and DecryptInternal never return null (they throw instead).
  So the null halves of the checks at CryptoManager.cs:82 and :134 have no
  model; only the empty case is modelled.
- String lengths count Dafny characters, where .NET counts UTF-16 code units.
  The two agree on the ASCII session keys the service creates.
- Crypto.CryptoManager.DecryptInternal (and `Crypto.DecryptedPrefix`): on a
  zero-length cipher text the source makes one zero-count `Read`, which the
  framework is understood to answer with 0 bytes without running the final
  block. The model leaves that case to the decryptor primitive, which may
  throw or return bytes. So the model does not promise that an empty
  `Cipher`, or a KSN that base64-decodes to no bytes, yields an empty clear
  text; it holds only for a decryptor that answers empty input with empty
  output.
- `CryptoStream.Read` is modelled as delivering as much of the clear text as
  fits in one call.
- The HTTP routing and API-key dispatch in CryptoServer.cs, the console in
  ConsoleManager.cs, the interactive setup in Setup.cs and the JSON settings
  loader in Settings.cs are not part of this model.
