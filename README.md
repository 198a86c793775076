# EHR key-wrap backend, modelled in Dafny

The backend stores patients' electronic health records (EHRs) encrypted
with AES-256-GCM under a fresh data key. It wraps that data key to the
owner's P-256 public key: an ephemeral ECDH agreement, HKDF-SHA256 with
info `ehr-kek` to derive a key-encryption key, then AES-256-GCM. A doctor
asks for access. The patient approves by unwrapping the data key with
their private key and re-wrapping it to the doctor's public key in a
"wrap pack". The doctor then fetches the EHR by unwrapping the pack with
their own private key.

The model has six modules:

- `Wrappers` holds Option and Result.
- `Encoding` holds Node's lowercase hex encoding and its permissive
  decoding, JavaScript's number-to-string conversion for the generated
  ids, and the fixed-width big-endian encoding of the ECDH shared
  x-coordinate.
- `Crypto` models `crypto-utils.js` symbolically, in the Dolev-Yao style.
  - A public key is a point that only `PubOf(priv)` builds.
  - The ECDH secret is the multiset of the two scalars.
  - HKDF output and GCM ciphertexts and tags are terms.
  - Decryption succeeds exactly when the key, the IV and the tag are the
    ones the term was made with.
- `Counter` models `getNextCounter` as a class over the counter
  collection.
- `Records` holds the stored documents (users, EHRs with their access
  requests, wrap packs) and Mongo's `findOne` as a first-match lookup in
  insertion order.
- `Server` models the route handlers as methods of a `Backend` object
  that owns the collections.
  - Each handler runs its checks in the route's order and answers with
    the status of the first check that fails.
  - Each handler states the exact new state.
  - Each handler keeps an invariant:
    - every key pair matches;
    - EHR ids come from the counter, so they are unique;
    - every stored envelope opens for its owner's key;
    - every pack opens for its doctor's key, for a doctor who holds an
      approved request.

Random draws are parameters of the operations that use them: the private
key of `genKeyPair`, `randomBytes` for data keys and IVs, the ephemeral
scalar, `uuidv4` and the bcrypt salt.

## Model

| member | source | states |
|---|---|---|
| Crypto.GenECKeypair | backend/crypto-utils.js:5-10 | the returned public key is the point of the returned private key, which is the random draw |
| Crypto.Ecdh | backend/crypto-utils.js:47 | the shared secret involves exactly two parties, one of them the caller's own scalar |
| Crypto.GcmEncrypt | backend/crypto-utils.js:15-17 | the ciphertext is as long as the plaintext, and its tag fixes the key and IV it was made under |
| Crypto.EcdhCommutes | backend/crypto-utils.js:47 | both sides of an ECDH agreement derive the same secret (eph with recipient's point, recipient with eph's point) |
| Crypto.EcdhBindsRecipient | backend/crypto-utils.js:62-64 | in the symbolic model, a key that reproduces the secret of a wrap to `recipient` is the private key of `recipient` |
| Crypto.GcmDecrypt | backend/crypto-utils.js:25-28 | GCM decryption returns the plaintext exactly when key, IV and whole tag are the sealing ones; a wrong tag is an authentication failure |
| Crypto.AesEncryptBuffer | backend/crypto-utils.js:12-19 | the key and IV come back as lowercase hex of 64 and 24 digits that decode to the drawn bytes; the ciphertext seals the buffer under the drawn key |
| Crypto.AesDecryptBuffer | backend/crypto-utils.js:21-30 | a successful decryption means the ciphertext and tag were made under the hex-decoded key and IV |
| Crypto.AesRoundTrip | backend/crypto-utils.js:12-30 | decrypting the output of `aesEncryptBuffer` with its own key returns the buffer |
| Crypto.AesWrongKeyRejected | backend/crypto-utils.js:21-30 | decrypting with a key that decodes to different bytes fails |
| Crypto.DeriveKek | backend/crypto-utils.js:32-42 | the KEK is 32 bytes of HKDF over the shared secret with empty salt and info `ehr-kek` |
| Crypto.WrapKeyToPub | backend/crypto-utils.js:44-59 | the artifact carries the ephemeral point and a 24-digit hex IV of the drawn bytes, and seals the hex-decoded data key under the KEK of ECDH(eph, recipient) |
| Crypto.UnwrapKeyFromEph | backend/crypto-utils.js:61-73 | unwrapping succeeds exactly when the wrapped key is sealed under the KEK the recipient derives, and returns the lowercase hex of the sealed key |
| Crypto.KekAgreement | backend/crypto-utils.js:44-73 | the sender's and the recipient's KEK derivations agree |
| Crypto.WrapUnwrapRoundTrip | backend/crypto-utils.js:44-73 | unwrapping a wrap to one's own point returns the wrapped data key, and returns it unchanged when it is lowercase hex |
| Crypto.UnwrapSucceedsIff | backend/crypto-utils.js:44-73 | in the symbolic model, a wrap opens with a private key if and only if that key belongs to the recipient; otherwise it fails authentication |
| Crypto.TamperedArtifactRejected | backend/crypto-utils.js:61-73 | changing the wrapped key, the IV bytes or the (whole) tag of an artifact makes unwrapping fail |
| Crypto.UnwrapAuthentic | backend/crypto-utils.js:61-73 | a successful unwrap means the artifact was sealed under the recipient's KEK with the given IV |
| Crypto.UnwrapSingleRecipient | backend/crypto-utils.js:61-73 | in the symbolic model, no two different private-key terms open the same wrap |
| Encoding.HexDigit | backend/crypto-utils.js:18 | each digit of `toString('hex')` is a lowercase hex digit |
| Encoding.DigitValue | backend/crypto-utils.js:22-24 | a hex digit of either letter case decodes to its value below 16 and inverts digit encoding; any other character decodes to nothing |
| Encoding.ToHex | backend/crypto-utils.js:18 | hex encoding doubles the length and uses lowercase digits only |
| Encoding.FromHex | backend/crypto-utils.js:22-24 | hex decoding yields at most one byte per two characters |
| Encoding.FromHexToHex | backend/crypto-utils.js:18-24 | decoding an encoded buffer returns the buffer |
| Encoding.ToHexFromHex | backend/crypto-utils.js:18-24 | encoding a decoded lowercase hex string returns the string |
| Encoding.ToHexInjective | backend/crypto-utils.js:18 | distinct buffers have distinct hex encodings |
| Encoding.NatDigits | backend/server.js:75 | the decimal form of a counter value is nonempty and starts with a digit |
| Encoding.NatDigitsAreDigits | backend/server.js:75 | every character of the decimal form of a counter value is a digit |
| Encoding.DecimalString | backend/server.js:75 | how a number is spelled inside an id: nonempty, a leading minus exactly for negative values, digits everywhere else |
| Encoding.ParseNatDigits | backend/server.js:75 | reading the decimal digits of a value gives the value back |
| Encoding.NatDigitsInjective | backend/server.js:75 | distinct non-negative values have distinct decimal forms |
| Encoding.DecimalStringInjective | backend/server.js:75 | distinct integers have distinct decimal forms |
| Encoding.PrefixedIdInjective | backend/server.js:251-252 | ids made from one prefix and two counter values clash only when the values are equal |
| Encoding.FromBigEndian | backend/crypto-utils.js:33 | a big-endian number read from `width` bytes is below 256^width |
| Encoding.BigEndianBytes | backend/crypto-utils.js:33 | a value that fits is written in exactly `width` bytes |
| Encoding.BigEndianRoundTrip | backend/crypto-utils.js:33 | reading back the `width`-byte big-endian form gives the value |
| Encoding.BigEndianLeftPadded | backend/crypto-utils.js:33 | a short shared x-coordinate is left-padded with zero bytes to 32 |
| Encoding.ToBigEndian | backend/crypto-utils.js:33 | `toArray('be', width)` succeeds exactly for values below 256^width, giving `width` bytes that read back to the value (width 32 for the shared secret) |
| Counter.NextCounter | backend/utils/counter.js:3-16 | an existing nonzero counter yields its value plus one; a new or zero counter yields the start value |
| Counter.NextCounterGrows | backend/utils/counter.js:3-16 | once a counter is at or above its start, every later value is larger, so each id family never repeats a value |
| Counter.CounterStore.GetNextCounter | backend/utils/counter.js:3-16 | returns the next value and stores it under the name, leaving the other counters unchanged |
| Records.FirstUser | backend/server.js:235 | `User.findOne` returns the first user with the id, or none when no user has it |
| Records.EmailTaken | backend/server.js:68-71 | defines the 400 "email taken" check: some stored user already has the email |
| Records.FirstEhr | backend/server.js:333 | `EHR.findOne({id})` returns the first EHR with the id, or none when no EHR has it |
| Records.FirstRequest | backend/server.js:429 | `accessRequests.find` returns the first request with the id, or none |
| Records.FirstEhrWithRequest | backend/server.js:421 | `EHR.findOne({"accessRequests.id"})` returns the first EHR holding the request, or none |
| Records.FirstPack | backend/server.js:518 | `WrapPack.findOne({ehrId, doctorId})` returns the first pack for the pair, or none |
| Records.FirstUserAppend | backend/server.js:84-99 | saving a new user does not change which user an existing id finds |
| Records.FirstEhrAppend | backend/server.js:255-267 | saving a new EHR does not change which EHR an existing id finds |
| Records.FirstEhrUpdate | backend/server.js:486-489 | updating an EHR in place without changing its id leaves every id lookup unchanged |
| Records.FirstEhrWithNewRequest | backend/server.js:336-345 | after a request with a fresh id is pushed to an EHR, looking up that request finds that EHR |
| Records.WrapFieldsPresent | backend/server.js:438-444 | defines the 400 check of approve-request: the owner wrap exists with a nonempty wrapped key and IV |
| Server.EhrIdsUnique | backend/server.js:251-267 | ids made from the "ehr" counter never clash, so looking up a stored EHR's id finds that EHR |
| Server.BumpCounterKeepsInv | backend/server.js:74 | bumping the patient or doctor counter keeps the store invariant |
| Server.AddUserKeepsInv | backend/server.js:84-99 | saving a user with a matching key pair keeps the store invariant |
| Server.AddEhrKeepsInv | backend/server.js:251-267 | saving an envelope that opens for its owner, under the next "ehr" counter value, keeps the invariant, and the new id finds the new EHR |
| Server.AddEhrKeepsPacks | backend/server.js:255-267 | existing packs stay sound when an EHR is added |
| Server.AddEhrKeepsIds | backend/server.js:251-267 | EHR ids stay derived from strictly increasing counter values |
| Server.OpensSameSeal | backend/server.js:523-528 | whether a wrap opens an envelope depends only on its ciphertext, IV and tag |
| Server.RequestsGrowKeepsApproved | backend/server.js:486-489 | an approved request stays approved as requests are added or approved |
| Server.UpdateRequestsKeepsPack | backend/server.js:338-345 | a pack stays sound when the requests of an EHR grow |
| Server.UpdateRequestsKeepsInv | backend/server.js:338-345 | pushing or approving a request keeps the store invariant |
| Server.AddPackKeepsInv | backend/server.js:472-478 | storing a sound pack keeps the store invariant |
| Server.OwnerUnwrapAuthentic | backend/server.js:446-453 | in the symbolic model, whoever unwraps an owner's envelope holds the owner's private key and recovers the key that decrypts the file |
| Server.RewrapOpens | backend/server.js:465 | re-wrapping the owner's data key to a user gives a wrap that user's key opens to the same data key |
| Server.ApproveKeepsInv | backend/server.js:414-509 | an approval by a key that opens the owner's wrap comes from the owner, keeps the invariant, and gives the doctor the owner's data key |
| Server.ApproveChecks | backend/server.js:421-460 | the checks run in the route's order: 404 for an unknown request, 400 for missing wrap fields, 403 when the key does not unwrap, 404 for an unknown doctor, and otherwise success with the first EHR holding the request, that request, the doctor and the unwrapped data key |
| Server.FetchAuthorized | backend/server.js:518-528 | a stored pack names a doctor with an approved request; it opens with that doctor's key and, in the symbolic model, no other, and the recovered key decrypts the EHR |
| Server.DoctorName | backend/server.js:298-302 | the name shown is the requesting doctor's full name, or "Unknown Doctor" when the doctor is not found |
| Server.PendingIn | backend/server.js:294-306 | the pending items of one EHR: at most one per request, each naming that EHR |
| Server.PendingOf | backend/server.js:289-309 | defines the listing: the pending items of the owner's EHRs, in EHR order and then request order |
| Server.PendingInExactly | backend/server.js:294-306 | an item is listed for an EHR if and only if it describes one of its pending requests |
| Server.PendingOfExactly | backend/server.js:284-321 | an item is listed if and only if it describes a pending request on an EHR the owner holds (`DescribesPending`) |
| Server.Backend.Register | backend/server.js:59-121 | 400 for a missing email or password or a taken email; otherwise bumps the counter; 500 if the full name is missing or the id is taken; otherwise stores the user with a fresh key pair and returns its id and private key; keeps the invariant |
| Server.Backend.RegisterPatient | backend/server.js:59-121 | registration with prefix "P", counter "patient" starting at 1000, role patient |
| Server.Backend.RegisterDoctor | backend/server.js:124-186 | registration with prefix "D", counter "doctor" starting at 2000, role doctor |
| Server.Backend.UploadRejection | backend/server.js:230-243 | upload goes ahead if and only if owner id and file are present and the owner is a registered patient; a missing id or file is a 400, an unknown owner a 404, a non-patient owner a 400 |
| Server.Envelope | backend/server.js:245-265 | defines the stored EHR: the buffer sealed under the data key and IV, the data key wrapped to the owner's public key, no requests |
| Server.EnvelopeOpens | backend/server.js:245-265 | the envelope upload builds is complete, the owner's private key unwraps it to the hex data key, and that key decrypts the stored file to the uploaded bytes |
| Server.UploadKeepsInv | backend/server.js:245-267 | adding that envelope for a registered patient under the next "ehr" counter value keeps the invariant, and the new id finds the new EHR |
| Server.Backend.Upload | backend/server.js:226-283 | a rejected upload changes nothing; otherwise exactly one envelope, sealed with the given data key and IVs and wrapped to the owner's public key, is appended under "EHR" + the next "ehr" counter value, the counter is bumped, and the id is returned; keeps the invariant |
| Server.Backend.RequestAccess | backend/server.js:324-366 | 404 for an unknown doctor or EHR; otherwise a pending request with the fresh id is appended to the EHR and that id then finds the EHR; keeps the invariant |
| Server.Backend.Approve | backend/server.js:414-509 | a failed check changes nothing; otherwise one pack re-wrapping the data key to the doctor is stored, the request is marked approved, "ehrId::doctorId" is returned, the approver holds the owner's key (in the symbolic model), and the doctor's key opens the pack; keeps the invariant |
| Server.Backend.Fetch | backend/server.js:511-543 | 404 for an unknown EHR, 403 without a pack, 403 when the key does not unwrap the pack, 404 when the stored file is empty; a success returns the stored file's name and nonempty plaintext; on a sound store the pack's doctor is registered, the doctor's key gets the file (or 404 for an empty file), and in the symbolic model any other key gets 403 |
| Server.Backend.PendingRequests | backend/server.js:284-321 | returns exactly the pending requests of the owner's EHRs, in EHR order and then request order |

## Left out

- AES-GCM, P-256, HKDF-SHA256 and bcrypt are symbolic. Their internals, the key-size limits of the curve and collisions are not modelled. In the model, decryption fails exactly on a key, IV or whole-tag mismatch. The two gaps below make the real program accept more than that.
- Crypto.UnwrapSingleRecipient: private keys are compared as terms. elliptic's `derive` returns only the x-coordinate of the shared point (`backend/crypto-utils.js:47,64`), and the scalars d and n-d give points with the same x-coordinate. So the real program also opens a wrap made to d·G with n-d. The same limit applies to Crypto.EcdhBindsRecipient, Crypto.UnwrapSucceedsIff, Server.OwnerUnwrapAuthentic, Server.FetchAuthorized, the "any other key gets 403" clause of Server.Backend.Fetch, and the "approver holds the owner's key" clause of Server.Backend.Approve.
- Crypto.TamperedArtifactRejected: tags are compared whole. No `authTagLength` is passed to `createDecipheriv` (`backend/crypto-utils.js:25-26,68-69`), so Node versions that allow short GCM tags accept a 4-, 8- or 12- to 15-byte prefix of the tag and check only that prefix. Truncating a tag is not modelled. The same limit applies to Crypto.GcmDecrypt and Crypto.UnwrapSucceedsIff.
- The concrete 32-byte x-coordinate is not linked to the symbolic secret. No injective map exists from pairs of scalars into 256-bit values, so big-endian encoding is proved on its own (`Encoding.ToBigEndian`).
- Hex strings that the route handlers pass through to `crypto-utils.js` (public and private keys, the wrapped key, the tag, the stored ciphertext) are kept as the symbolic terms they encode. Only the data key and the IVs are concrete bytes and strings.
- Crypto.AesDecryptBuffer: a malformed key or IV hex makes Node throw before decryption. This is modelled as a decryption failure with the decoded bytes, which is the same outcome for every handler.
- Express, Multer, Mongo and the blockchain contract calls are not modelled. `console` logging, timestamps (`createdAt`) and the 500 answers on database errors are left out too.
- Server.Backend.Upload: the ciphertext is stored through `Buffer.from(hex, 'utf8')`, which casts back to the same string, so this is taken as identity.
- Server.Backend.Fetch: the returned data is the plaintext bytes; their base64 encoding in the JSON body is not modelled.
- Server.Backend.Approve: `WrapPack.create` is modelled as never failing, so its 500 answer is not reachable in the model. The `reqObj` not-found 404 cannot happen after the EHR was found by that request id, so it is not a separate branch. The check for the four wrap fields reduces to a nonempty wrapped key and IV, because the ephemeral point and the tag are always present in the model.
- Server.Backend.RequestAccess: the id drawn by `uuidv4()` is assumed fresh (no stored request carries it).
- Users' other profile fields (date of birth, gender, contact, address, licence, specialisation, hospital, the suspended flag) are not modelled. Absent request fields are modelled as the empty string.
- The second registrations of `/api/request-access` and `/api/approve-request` (`backend/server.js:369-412`, `546-580`) are never reached by Express, because the first handler ends every request. Login, list-users and list-ehrs are outside the modelled core.
- Concurrency between requests is not modelled. Each handler runs atomically on the store.
- The code requires no pending status to approve a request, and it does not stop a second pack from being stored for the same EHR and doctor. Fetch uses the first pack. The model follows the code on both points.
