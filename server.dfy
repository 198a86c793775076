/**
 * The route handlers of the EHR backend as methods of one state object that
 * holds the three collections and the counters. Each handler checks its
 * inputs in the source's order, answers with the first failing check's
 * status, and otherwise updates the collections.
 */
module Server {
  import opened Wrappers
  import opened Encoding
  import opened Crypto
  import opened Counter
  import opened Records

  /** An HTTP answer: a body on success, a status code on failure. */
  datatype Reply<+T> = Done(value: T) | Fail(code: int)

  datatype Registration = Registration(id: string, privateKey: PrivKey)

  datatype PendingItem = PendingItem(doctorId: string, doctorName: string, ehrId: string, requestId: string)

  /** A fetched file: its name and plaintext bytes (sent base64 encoded). */
  datatype Fetched = Fetched(filename: string, data: seq<byte>)

  const PatientCounter: string := "patient"
  const DoctorCounter: string := "doctor"
  const EhrCounter: string := "ehr"
  const PatientStart: int := 1000
  const DoctorStart: int := 2000
  const EhrStart: int := 3000

  /** The owner of `e` is a registered patient whose key opens the owner's wrap of `e`. */
  ghost predicate RecordSound(users: seq<User>, e: Ehr) {
    && FirstUser(users, e.ownerId).Some?
    && users[FirstUser(users, e.ownerId).value].role == Patient
    && WrapFieldsPresent(e.wrappedToOwner)
    && Opens(e.wrappedToOwner.value, users[FirstUser(users, e.ownerId).value].priv, e)
  }

  /**
   * A pack names an existing EHR and user, the user's key opens the pack to
   * the EHR's data key, and an approved request of that user is on the EHR.
   */
  ghost predicate PackSound(users: seq<User>, ehrs: seq<Ehr>, p: WrapPack) {
    && FirstEhr(ehrs, p.ehrId).Some?
    && FirstUser(users, p.doctorId).Some?
    && Opens(p.rewrap, users[FirstUser(users, p.doctorId).value].priv, ehrs[FirstEhr(ehrs, p.ehrId).value])
    && HasApproved(ehrs[FirstEhr(ehrs, p.ehrId).value].accessRequests, p.doctorId)
  }

  /**
   * The store invariant: key pairs match, EHR ids are "EHR" + strictly
   * increasing counter values not above the "ehr" counter, every envelope
   * opens for its owner, every pack opens for its doctor.
   */
  ghost predicate Inv(users: seq<User>, ehrs: seq<Ehr>, packs: seq<WrapPack>, numbers: seq<int>, values: map<string, int>) {
    && KeysMatch(users)
    && IdsFromCounter(ehrs, numbers, values)
    && (forall i {:trigger RecordSound(users, ehrs[i])} :: 0 <= i < |ehrs| ==> RecordSound(users, ehrs[i]))
    && (forall p {:trigger PackSound(users, ehrs, packs[p])} :: 0 <= p < |packs| ==> PackSound(users, ehrs, packs[p]))
  }

  ghost predicate KeysMatch(users: seq<User>) {
    forall i :: 0 <= i < |users| ==> users[i].pub == PubOf(users[i].priv)
  }

  ghost predicate IdsFromCounter(ehrs: seq<Ehr>, numbers: seq<int>, values: map<string, int>) {
    && |numbers| == |ehrs|
    && (forall i :: 0 <= i < |ehrs| ==> ehrs[i].id == "EHR" + DecimalString(numbers[i]))
    && (forall i, j :: 0 <= i < j < |ehrs| ==> numbers[i] < numbers[j])
    && if EhrCounter in values then
         values[EhrCounter] >= EhrStart && forall i :: 0 <= i < |ehrs| ==> numbers[i] <= values[EhrCounter]
       else
         ehrs == []
  }

  /** The EHR ids of distinct positions never clash, so `EHR.findOne({id})` finds the EHR itself. */
  lemma EhrIdsUnique(ehrs: seq<Ehr>, numbers: seq<int>, values: map<string, int>, i: nat)
    requires IdsFromCounter(ehrs, numbers, values) && i < |ehrs|
    ensures FirstEhr(ehrs, ehrs[i].id) == Some(i)
  {
    var k := FirstEhr(ehrs, ehrs[i].id).value;
    if k != i {
      PrefixedIdInjective("EHR", numbers[k], numbers[i]);
      assert false;
    }
  }

  /** Bumping a counter other than "ehr" keeps the invariant. */
  lemma BumpCounterKeepsInv(users: seq<User>, ehrs: seq<Ehr>, packs: seq<WrapPack>, numbers: seq<int>,
                            values: map<string, int>, counterName: string, n: int)
    requires Inv(users, ehrs, packs, numbers, values) && counterName != EhrCounter
    ensures Inv(users, ehrs, packs, numbers, values[counterName := n])
  {
    var values' := values[counterName := n];
    assert EhrCounter in values' <==> EhrCounter in values;
    assert EhrCounter in values ==> values'[EhrCounter] == values[EhrCounter];
  }

  /** A new user at the end keeps the invariant. */
  lemma AddUserKeepsInv(users: seq<User>, ehrs: seq<Ehr>, packs: seq<WrapPack>, numbers: seq<int>,
                        values: map<string, int>, u: User)
    requires Inv(users, ehrs, packs, numbers, values)
    requires u.pub == PubOf(u.priv)
    ensures Inv(users + [u], ehrs, packs, numbers, values)
  {
    forall i | 0 <= i < |users + [u]|
      ensures (users + [u])[i].pub == PubOf((users + [u])[i].priv)
    {
      if i < |users| {
        assert (users + [u])[i] == users[i];
      }
    }
    forall i | 0 <= i < |ehrs|
      ensures RecordSound(users + [u], ehrs[i])
    {
      assert RecordSound(users, ehrs[i]);
      FirstUserAppend(users, u, ehrs[i].ownerId);
    }
    forall p | 0 <= p < |packs|
      ensures PackSound(users + [u], ehrs, packs[p])
    {
      assert PackSound(users, ehrs, packs[p]);
      FirstUserAppend(users, u, packs[p].doctorId);
    }
  }

  /** A new envelope that opens for its owner, under the next "ehr" counter value, keeps the invariant. */
  lemma AddEhrKeepsInv(users: seq<User>, ehrs: seq<Ehr>, packs: seq<WrapPack>, numbers: seq<int>,
                       values: map<string, int>, e: Ehr, n: int)
    requires Inv(users, ehrs, packs, numbers, values)
    requires n == NextCounter(values, EhrCounter, EhrStart) && e.id == "EHR" + DecimalString(n)
    requires RecordSound(users, e)
    ensures Inv(users, ehrs + [e], packs, numbers + [n], values[EhrCounter := n])
    ensures FirstEhr(ehrs + [e], e.id) == Some(|ehrs|)
  {
    AddEhrKeepsIds(ehrs, numbers, values, e, n);
    AddEhrKeepsPacks(users, ehrs, packs, e);
    AddEhrKeepsRecords(users, ehrs, e);
    EhrIdsUnique(ehrs + [e], numbers + [n], values[EhrCounter := n], |ehrs|);
  }

  lemma AddEhrKeepsRecords(users: seq<User>, ehrs: seq<Ehr>, e: Ehr)
    requires forall i {:trigger RecordSound(users, ehrs[i])} :: 0 <= i < |ehrs| ==> RecordSound(users, ehrs[i])
    requires RecordSound(users, e)
    ensures forall i {:trigger RecordSound(users, (ehrs + [e])[i])} :: 0 <= i < |ehrs + [e]| ==> RecordSound(users, (ehrs + [e])[i])
  {
    forall j | 0 <= j < |ehrs + [e]|
      ensures RecordSound(users, (ehrs + [e])[j])
    {
      if j < |ehrs| {
        assert (ehrs + [e])[j] == ehrs[j];
      }
    }
  }

  lemma AddEhrKeepsPacks(users: seq<User>, ehrs: seq<Ehr>, packs: seq<WrapPack>, e: Ehr)
    requires forall p :: 0 <= p < |packs| ==> PackSound(users, ehrs, packs[p])
    ensures forall p :: 0 <= p < |packs| ==> PackSound(users, ehrs + [e], packs[p])
  {
    forall p | 0 <= p < |packs|
      ensures PackSound(users, ehrs + [e], packs[p])
    {
      var pk := packs[p];
      assert PackSound(users, ehrs, pk);
      FirstEhrAppend(ehrs, e, pk.ehrId);
      var i := FirstEhr(ehrs, pk.ehrId).value;
      assert (ehrs + [e])[i] == ehrs[i];
    }
  }

  lemma AddEhrKeepsIds(ehrs: seq<Ehr>, numbers: seq<int>, values: map<string, int>, e: Ehr, n: int)
    requires IdsFromCounter(ehrs, numbers, values)
    requires n == NextCounter(values, EhrCounter, EhrStart) && e.id == "EHR" + DecimalString(n)
    ensures IdsFromCounter(ehrs + [e], numbers + [n], values[EhrCounter := n])
  {
    NextCounterGrows(values, EhrCounter, EhrStart);
    var ehrs', numbers' := ehrs + [e], numbers + [n];
    assert forall i :: 0 <= i < |ehrs| ==> numbers'[i] == numbers[i] < n;
    assert forall i :: 0 <= i < |ehrs| ==> ehrs'[i] == ehrs[i];
  }

  /** Whether a wrap opens an envelope depends only on the sealed file, its IV and its tag. */
  lemma OpensSameSeal(w: WrapArtifact, priv: PrivKey, e: Ehr, e': Ehr)
    requires e.file == e'.file && e.iv == e'.iv && e.tag == e'.tag
    ensures Opens(w, priv, e) == Opens(w, priv, e')
  {
  }

  /** An approved request of a doctor stays approved when the requests grow or a status becomes approved. */
  ghost predicate RequestsGrow(reqs: seq<AccessRequest>, reqs': seq<AccessRequest>) {
    && |reqs'| >= |reqs|
    && forall k :: 0 <= k < |reqs| ==>
         reqs'[k].doctorId == reqs[k].doctorId && (reqs[k].status == Approved ==> reqs'[k].status == Approved)
  }

  lemma RequestsGrowKeepsApproved(reqs: seq<AccessRequest>, reqs': seq<AccessRequest>, doctorId: string)
    requires RequestsGrow(reqs, reqs') && HasApproved(reqs, doctorId)
    ensures HasApproved(reqs', doctorId)
  {
    var k :| 0 <= k < |reqs| && reqs[k].doctorId == doctorId && reqs[k].status == Approved;
    assert reqs'[k].doctorId == doctorId && reqs'[k].status == Approved;
  }

  /** Marking one request approved only grows the approvals. */
  lemma ApprovalGrows(reqs: seq<AccessRequest>, k: nat)
    requires k < |reqs|
    ensures RequestsGrow(reqs, reqs[k := reqs[k].(status := Approved)])
  {
  }

  lemma UpdateRequestsKeepsPack(users: seq<User>, ehrs: seq<Ehr>, i: nat, reqs: seq<AccessRequest>, pk: WrapPack)
    requires i < |ehrs| && RequestsGrow(ehrs[i].accessRequests, reqs)
    requires PackSound(users, ehrs, pk)
    ensures PackSound(users, ehrs[i := ehrs[i].(accessRequests := reqs)], pk)
  {
    var e' := ehrs[i].(accessRequests := reqs);
    var ehrs' := ehrs[i := e'];
    FirstEhrUpdate(ehrs, i, e', pk.ehrId);
    var j := FirstEhr(ehrs, pk.ehrId).value;
    var u := FirstUser(users, pk.doctorId).value;
    OpensSameSeal(pk.rewrap, users[u].priv, ehrs[j], ehrs'[j]);
    if j == i {
      RequestsGrowKeepsApproved(ehrs[i].accessRequests, reqs, pk.doctorId);
    }
  }

  /** Replacing the requests of one EHR by a grown list keeps the invariant. */
  lemma UpdateRequestsKeepsInv(users: seq<User>, ehrs: seq<Ehr>, packs: seq<WrapPack>, numbers: seq<int>,
                               values: map<string, int>, i: nat, reqs: seq<AccessRequest>)
    requires Inv(users, ehrs, packs, numbers, values) && i < |ehrs|
    requires RequestsGrow(ehrs[i].accessRequests, reqs)
    ensures Inv(users, ehrs[i := ehrs[i].(accessRequests := reqs)], packs, numbers, values)
  {
    var e' := ehrs[i].(accessRequests := reqs);
    var ehrs' := ehrs[i := e'];
    assert RecordSound(users, ehrs[i]);
    OpensSameSeal(ehrs[i].wrappedToOwner.value, users[FirstUser(users, ehrs[i].ownerId).value].priv, ehrs[i], e');
    forall j | 0 <= j < |ehrs'|
      ensures RecordSound(users, ehrs'[j])
    {
      if j != i {
        assert RecordSound(users, ehrs[j]);
      }
    }
    assert IdsFromCounter(ehrs', numbers, values);
    forall p | 0 <= p < |packs|
      ensures PackSound(users, ehrs', packs[p])
    {
      UpdateRequestsKeepsPack(users, ehrs, i, reqs, packs[p]);
    }
  }

  /** A pack that is sound keeps the invariant when stored. */
  lemma AddPackKeepsInv(users: seq<User>, ehrs: seq<Ehr>, packs: seq<WrapPack>, numbers: seq<int>,
                        values: map<string, int>, p: WrapPack)
    requires Inv(users, ehrs, packs, numbers, values) && PackSound(users, ehrs, p)
    ensures Inv(users, ehrs, packs + [p], numbers, values)
  {
    assert forall q :: 0 <= q < |packs + [p]| ==> (packs + [p])[q] == if q < |packs| then packs[q] else p;
  }

  /**
   * Whoever unwraps the owner's wrap of a sound envelope holds the owner's
   * private key, and recovers the data key that decrypts the envelope.
   */
  lemma OwnerUnwrapAuthentic(users: seq<User>, e: Ehr, priv: PrivKey)
    requires RecordSound(users, e) && Unwrap(e.wrappedToOwner.value, priv).Ok?
    ensures priv == users[FirstUser(users, e.ownerId).value].priv
    ensures AesDecryptBuffer(e.file, e.iv, e.tag, Unwrap(e.wrappedToOwner.value, priv).value).Ok?
  {
    var owner := users[FirstUser(users, e.ownerId).value];
    UnwrapSingleRecipient(e.wrappedToOwner.value, priv, owner.priv);
  }

  /** Rewrapping the data key of a sound envelope to a user yields a wrap that user's key opens. */
  lemma RewrapOpens(users: seq<User>, e: Ehr, ownerPriv: PrivKey, u: nat, eph: PrivKey, wrapIv: seq<byte>)
    requires KeysMatch(users) && u < |users| && |wrapIv| == 12
    requires RecordSound(users, e) && Unwrap(e.wrappedToOwner.value, ownerPriv).Ok?
    ensures Opens(WrapKeyToPub(Unwrap(e.wrappedToOwner.value, ownerPriv).value, users[u].pub, eph, wrapIv), users[u].priv, e)
    ensures Unwrap(WrapKeyToPub(Unwrap(e.wrappedToOwner.value, ownerPriv).value, users[u].pub, eph, wrapIv), users[u].priv)
            == Unwrap(e.wrappedToOwner.value, ownerPriv)
  {
    var symKeyHex := Unwrap(e.wrappedToOwner.value, ownerPriv).value;
    OwnerUnwrapAuthentic(users, e, ownerPriv);
    WrapUnwrapRoundTrip(symKeyHex, users[u].priv, eph, wrapIv);
  }

  /**
   * Approving request `k` of EHR `i` with a key that opens the owner's wrap,
   * for a doctor found at `u`, keeps the invariant; the approver is the owner
   * and the doctor's key opens the new pack to the owner's data key.
   */
  lemma ApproveKeepsInv(users: seq<User>, ehrs: seq<Ehr>, packs: seq<WrapPack>, numbers: seq<int>,
                        values: map<string, int>, i: nat, k: nat, ownerPriv: PrivKey, u: nat,
                        eph: PrivKey, wrapIv: seq<byte>)
    requires Inv(users, ehrs, packs, numbers, values) && |wrapIv| == 12
    requires i < |ehrs| && k < |ehrs[i].accessRequests| && u < |users|
    requires users[u].id == ehrs[i].accessRequests[k].doctorId
    requires FirstUser(users, ehrs[i].accessRequests[k].doctorId) == Some(u)
    requires ehrs[i].wrappedToOwner.Some? && Unwrap(ehrs[i].wrappedToOwner.value, ownerPriv).Ok?
    ensures RecordSound(users, ehrs[i])
    ensures ownerPriv == users[FirstUser(users, ehrs[i].ownerId).value].priv
    ensures
      var e := ehrs[i];
      var req := e.accessRequests[k];
      var rewrap := WrapKeyToPub(Unwrap(e.wrappedToOwner.value, ownerPriv).value, users[u].pub, eph, wrapIv);
      && Unwrap(rewrap, users[u].priv) == Unwrap(e.wrappedToOwner.value, ownerPriv)
      && Inv(users, ehrs[i := e.(accessRequests := e.accessRequests[k := req.(status := Approved)])],
             packs + [WrapPack(e.id, req.doctorId, rewrap)], numbers, values)
  {
    var e := ehrs[i];
    var req := e.accessRequests[k];
    var rewrap := WrapKeyToPub(Unwrap(e.wrappedToOwner.value, ownerPriv).value, users[u].pub, eph, wrapIv);
    var reqs := e.accessRequests[k := req.(status := Approved)];
    var e' := e.(accessRequests := reqs);
    var pack := WrapPack(e.id, req.doctorId, rewrap);
    assert RecordSound(users, e);
    OwnerUnwrapAuthentic(users, e, ownerPriv);
    RewrapOpens(users, e, ownerPriv, u, eph, wrapIv);
    ApprovalGrows(e.accessRequests, k);
    UpdateRequestsKeepsInv(users, ehrs, packs, numbers, values, i, reqs);
    EhrIdsUnique(ehrs, numbers, values, i);
    FirstEhrUpdate(ehrs, i, e', e.id);
    OpensSameSeal(rewrap, users[u].priv, e, e');
    assert reqs[k].doctorId == req.doctorId && reqs[k].status == Approved;
    assert PackSound(users, ehrs[i := e'], pack);
    AddPackKeepsInv(users, ehrs[i := e'], packs, numbers, values, pack);
  }

  /**
   * The EHR upload-ehr stores: the file sealed by `aesEncryptBuffer` under a
   * fresh data key, and that key wrapped to the owner's public key.
   */
  function Envelope(id: string, ownerId: string, ownerPub: PubKey, filename: string, buffer: seq<byte>,
                    dataKey: seq<byte>, iv: seq<byte>, eph: PrivKey, wrapIv: seq<byte>): Ehr
    requires |dataKey| == 32 && |iv| == 12 && |wrapIv| == 12
  {
    var aes := AesEncryptBuffer(buffer, dataKey, iv);
    Ehr(id, ownerId, filename, aes.ciphertext, aes.iv, aes.tag, Some(WrapKeyToPub(aes.symKey, ownerPub, eph, wrapIv)), [])
  }

  /**
   * A stored envelope opens for its owner: the owner's private key unwraps
   * the data key, and the data key decrypts the envelope to the uploaded file.
   */
  lemma EnvelopeOpens(id: string, ownerId: string, owner: User, filename: string, buffer: seq<byte>,
                      dataKey: seq<byte>, iv: seq<byte>, eph: PrivKey, wrapIv: seq<byte>)
    requires |dataKey| == 32 && |iv| == 12 && |wrapIv| == 12 && owner.pub == PubOf(owner.priv)
    ensures
      var e := Envelope(id, ownerId, owner.pub, filename, buffer, dataKey, iv, eph, wrapIv);
      && WrapFieldsPresent(e.wrappedToOwner)
      && Unwrap(e.wrappedToOwner.value, owner.priv) == Ok(ToHex(dataKey))
      && AesDecryptBuffer(e.file, e.iv, e.tag, ToHex(dataKey)) == Ok(buffer)
      && Opens(e.wrappedToOwner.value, owner.priv, e)
  {
    var aes := AesEncryptBuffer(buffer, dataKey, iv);
    WrapUnwrapRoundTrip(aes.symKey, owner.priv, eph, wrapIv);
    AesRoundTrip(buffer, dataKey, iv);
    FromHexToHex(dataKey);
  }

  /** Storing the envelope of an accepted upload under the next "ehr" counter value keeps the invariant. */
  lemma UploadKeepsInv(users: seq<User>, ehrs: seq<Ehr>, packs: seq<WrapPack>, numbers: seq<int>, values: map<string, int>,
                       ownerId: string, filename: string, buffer: seq<byte>,
                       dataKey: seq<byte>, iv: seq<byte>, eph: PrivKey, wrapIv: seq<byte>)
    requires Inv(users, ehrs, packs, numbers, values) && |dataKey| == 32 && |iv| == 12 && |wrapIv| == 12
    requires FirstUser(users, ownerId).Some? && users[FirstUser(users, ownerId).value].role == Patient
    ensures
      var n := NextCounter(values, EhrCounter, EhrStart);
      var e := Envelope("EHR" + DecimalString(n), ownerId, users[FirstUser(users, ownerId).value].pub,
                        filename, buffer, dataKey, iv, eph, wrapIv);
      && Inv(users, ehrs + [e], packs, numbers + [n], values[EhrCounter := n])
      && FirstEhr(ehrs + [e], e.id) == Some(|ehrs|)
  {
    var owner := users[FirstUser(users, ownerId).value];
    var n := NextCounter(values, EhrCounter, EhrStart);
    var id := "EHR" + DecimalString(n);
    var e := Envelope(id, ownerId, owner.pub, filename, buffer, dataKey, iv, eph, wrapIv);
    EnvelopeOpens(id, ownerId, owner, filename, buffer, dataKey, iv, eph, wrapIv);
    assert RecordSound(users, e);
    AddEhrKeepsInv(users, ehrs, packs, numbers, values, e, n);
  }

  /** The outcome of a registration route, from the users and counters before to those after. */
  ghost predicate RegisterSpec(users0: seq<User>, values0: map<string, int>, users1: seq<User>, values1: map<string, int>,
                               r: Reply<Registration>, role: Role, prefix: string, counterName: string, start: int,
                               fullName: string, email: string, password: string, keyDraw: PrivKey, salt: nat)
  {
    if email == "" || password == "" || EmailTaken(users0, email) then
      r == Fail(400) && users1 == users0 && values1 == values0
    else
      var n := NextCounter(values0, counterName, start);
      var id := prefix + DecimalString(n);
      && values1 == values0[counterName := n]
      && if fullName == "" || FirstUser(users0, id).Some? then
           r == Fail(500) && users1 == users0
         else
           && users1 == users0 + [User(id, role, fullName, email, Bcrypt(password, salt), PubOf(keyDraw), keyDraw)]
           && r == Done(Registration(id, keyDraw))
  }

  /** What the checks of approve-request found: EHR `i`, its request `k`, the doctor `u`, the data key. */
  datatype Approval = Approval(i: nat, k: nat, u: nat, symKeyHex: string)

  /**
   * The checks of approve-request, in the route's order: the EHR holding the
   * request (404), the owner's wrap fields (400), unwrapping them with the
   * given key (403), the requesting doctor (404). Nothing requires the
   * request to be pending.
   */
  function ApproveChecks(users: seq<User>, ehrs: seq<Ehr>, requestId: string, ownerPriv: PrivKey): (r: Reply<Approval>)
    ensures r.Fail? ==> r.code in {400, 403, 404}
    ensures r.Done? ==>
              && FirstEhrWithRequest(ehrs, requestId) == Some(r.value.i) && r.value.i < |ehrs|
              && FirstRequest(ehrs[r.value.i].accessRequests, requestId) == Some(r.value.k)
              && WrapFieldsPresent(ehrs[r.value.i].wrappedToOwner)
              && Unwrap(ehrs[r.value.i].wrappedToOwner.value, ownerPriv) == Ok(r.value.symKeyHex)
              && FirstUser(users, ehrs[r.value.i].accessRequests[r.value.k].doctorId) == Some(r.value.u)
    ensures FirstEhrWithRequest(ehrs, requestId).None? ==> r == Fail(404)
    ensures FirstEhrWithRequest(ehrs, requestId).Some? ==>
              var i := FirstEhrWithRequest(ehrs, requestId).value;
              var w := ehrs[i].wrappedToOwner;
              && (!WrapFieldsPresent(w) ==> r == Fail(400))
              && (WrapFieldsPresent(w) && Unwrap(w.value, ownerPriv).Err? ==> r == Fail(403))
              && (WrapFieldsPresent(w) && Unwrap(w.value, ownerPriv).Ok? ==>
                    var k := FirstRequest(ehrs[i].accessRequests, requestId).value;
                    var doctor := FirstUser(users, ehrs[i].accessRequests[k].doctorId);
                    && (doctor.None? ==> r == Fail(404))
                    && (doctor.Some? ==> r == Done(Approval(i, k, doctor.value, Unwrap(w.value, ownerPriv).value))))
  {
    match FirstEhrWithRequest(ehrs, requestId)
    case None => Fail(404)
    case Some(i) =>
      var k := FirstRequest(ehrs[i].accessRequests, requestId).value;
      if !WrapFieldsPresent(ehrs[i].wrappedToOwner) then Fail(400)
      else match Unwrap(ehrs[i].wrappedToOwner.value, ownerPriv)
        case Err(_) => Fail(403)
        case Ok(symKeyHex) =>
          match FirstUser(users, ehrs[i].accessRequests[k].doctorId)
          case None => Fail(404)
          case Some(u) => Done(Approval(i, k, u, symKeyHex))
  }

  /**
   * The outcome of approve-request, from the EHRs and packs before to those
   * after: on success one new pack wrapping the owner's data key to the
   * doctor, and the request's status set to approved; otherwise no change.
   */
  ghost predicate ApproveSpec(users: seq<User>, ehrs0: seq<Ehr>, packs0: seq<WrapPack>, ehrs1: seq<Ehr>, packs1: seq<WrapPack>,
                              r: Reply<string>, requestId: string, ownerPriv: PrivKey, eph: PrivKey, wrapIv: seq<byte>)
    requires |wrapIv| == 12
  {
    match ApproveChecks(users, ehrs0, requestId, ownerPriv)
    case Fail(code) => r == Fail(code) && ehrs1 == ehrs0 && packs1 == packs0
    case Done(a) =>
      var e := ehrs0[a.i];
      var req := e.accessRequests[a.k];
      && packs1 == packs0 + [WrapPack(e.id, req.doctorId, WrapKeyToPub(a.symKeyHex, users[a.u].pub, eph, wrapIv))]
      && ehrs1 == ehrs0[a.i := e.(accessRequests := e.accessRequests[a.k := req.(status := Approved)])]
      && r == Done(e.id + "::" + req.doctorId)
  }

  /**
   * Fetching through a sound pack: only the doctor's own key opens it, the
   * doctor holds an approved request on the EHR, and the doctor's key
   * recovers the data key that decrypts the EHR.
   */
  lemma FetchAuthorized(users: seq<User>, ehrs: seq<Ehr>, packs: seq<WrapPack>, numbers: seq<int>,
                        values: map<string, int>, p: nat, priv: PrivKey)
    requires Inv(users, ehrs, packs, numbers, values) && p < |packs|
    ensures PackSound(users, ehrs, packs[p])
    ensures
      var pk := packs[p];
      var e := ehrs[FirstEhr(ehrs, pk.ehrId).value];
      var doctor := users[FirstUser(users, pk.doctorId).value];
      && HasApproved(e.accessRequests, pk.doctorId)
      && (Unwrap(pk.rewrap, priv).Ok? <==> priv == doctor.priv)
      && (priv == doctor.priv ==> AesDecryptBuffer(e.file, e.iv, e.tag, Unwrap(pk.rewrap, priv).value) == Ok(e.file.plaintext))
  {
    var pk := packs[p];
    assert PackSound(users, ehrs, pk);
    var doctor := users[FirstUser(users, pk.doctorId).value];
    if Unwrap(pk.rewrap, priv).Ok? {
      UnwrapSingleRecipient(pk.rewrap, priv, doctor.priv);
    }
  }

  /** The name shown for a requesting doctor. */
  function DoctorName(users: seq<User>, doctorId: string): (name: string)
    ensures FirstUser(users, doctorId).None? ==> name == "Unknown Doctor"
    ensures FirstUser(users, doctorId).Some? ==> name == users[FirstUser(users, doctorId).value].fullName
  {
    match FirstUser(users, doctorId)
    case None => "Unknown Doctor"
    case Some(u) => users[u].fullName
  }

  function ItemFor(users: seq<User>, e: Ehr, q: AccessRequest): PendingItem {
    PendingItem(q.doctorId, DoctorName(users, q.doctorId), e.id, q.id)
  }

  /** The pending requests among `reqs` of EHR `e`, in request order. */
  function PendingIn(users: seq<User>, e: Ehr, reqs: seq<AccessRequest>): (items: seq<PendingItem>)
    ensures |items| <= |reqs|
    ensures forall j :: 0 <= j < |items| ==> items[j].ehrId == e.id
  {
    if reqs == [] then []
    else PendingIn(users, e, reqs[..|reqs| - 1])
         + (if reqs[|reqs| - 1].status == Pending then [ItemFor(users, e, reqs[|reqs| - 1])] else [])
  }

  /** The pending requests of the EHRs of `ownerId`, in EHR order and then request order. */
  function PendingOf(users: seq<User>, ehrs: seq<Ehr>, ownerId: string): seq<PendingItem> {
    if ehrs == [] then []
    else PendingOf(users, ehrs[..|ehrs| - 1], ownerId)
         + (if ehrs[|ehrs| - 1].ownerId == ownerId then PendingIn(users, ehrs[|ehrs| - 1], ehrs[|ehrs| - 1].accessRequests) else [])
  }

  lemma {:induction false} PendingInExactly(users: seq<User>, e: Ehr, reqs: seq<AccessRequest>, x: PendingItem)
    ensures x in PendingIn(users, e, reqs) <==>
              exists k :: 0 <= k < |reqs| && reqs[k].status == Pending && x == ItemFor(users, e, reqs[k])
  {
    if reqs != [] {
      var init := reqs[..|reqs| - 1];
      PendingInExactly(users, e, init, x);
      assert forall k :: 0 <= k < |init| ==> init[k] == reqs[k];
      if x in PendingIn(users, e, reqs) && x !in PendingIn(users, e, init) {
        assert reqs[|reqs| - 1].status == Pending && x == ItemFor(users, e, reqs[|reqs| - 1]);
      }
    }
  }

  /** Request `k` of EHR `i` is a pending request on an EHR of `ownerId`, and `x` describes it. */
  ghost predicate DescribesPending(users: seq<User>, ehrs: seq<Ehr>, ownerId: string, x: PendingItem, i: int, k: int) {
    && 0 <= i < |ehrs| && ehrs[i].ownerId == ownerId && 0 <= k < |ehrs[i].accessRequests|
    && ehrs[i].accessRequests[k].status == Pending
    && x == ItemFor(users, ehrs[i], ehrs[i].accessRequests[k])
  }

  /**
   * pending-requests lists exactly the pending requests of the owner's EHRs:
   * an item is listed if and only if it describes such a request.
   */
  lemma {:induction false} PendingOfExactly(users: seq<User>, ehrs: seq<Ehr>, ownerId: string, x: PendingItem)
    ensures x in PendingOf(users, ehrs, ownerId) <==> exists i, k :: DescribesPending(users, ehrs, ownerId, x, i, k)
  {
    if ehrs != [] {
      var init, last := ehrs[..|ehrs| - 1], ehrs[|ehrs| - 1];
      PendingOfExactly(users, init, ownerId, x);
      PendingInExactly(users, last, last.accessRequests, x);
      if x in PendingOf(users, ehrs, ownerId) {
        if x in PendingOf(users, init, ownerId) {
          var i, k :| DescribesPending(users, init, ownerId, x, i, k);
          assert init[i] == ehrs[i];
          assert DescribesPending(users, ehrs, ownerId, x, i, k);
        } else {
          assert last.ownerId == ownerId && x in PendingIn(users, last, last.accessRequests);
          var k :| 0 <= k < |last.accessRequests| && last.accessRequests[k].status == Pending
                   && x == ItemFor(users, last, last.accessRequests[k]);
          assert DescribesPending(users, ehrs, ownerId, x, |ehrs| - 1, k);
        }
      } else {
        forall i, k | DescribesPending(users, ehrs, ownerId, x, i, k)
          ensures false
        {
          if i < |init| {
            assert init[i] == ehrs[i];
            assert DescribesPending(users, init, ownerId, x, i, k);
          }
        }
      }
    }
  }

  class Backend {
    var users: seq<User>
    var ehrs: seq<Ehr>
    var packs: seq<WrapPack>
    const counters: CounterStore
    /** The counter value each EHR id was made from, position by position. */
    ghost var ehrNumbers: seq<int>

    ghost predicate Valid()
      reads this, counters
    {
      Inv(users, ehrs, packs, ehrNumbers, counters.values)
    }

    constructor()
      ensures Valid() && fresh(counters)
      ensures users == [] && ehrs == [] && packs == [] && counters.values == map[]
    {
      users, ehrs, packs := [], [], [];
      counters := new CounterStore();
      ehrNumbers := [];
    }

    method Register(role: Role, prefix: string, counterName: string, start: int,
                    fullName: string, email: string, password: string, keyDraw: PrivKey, salt: nat)
      returns (r: Reply<Registration>)
      requires Valid() && counterName != EhrCounter
      modifies this, counters
      ensures Valid()
      ensures RegisterSpec(old(users), old(counters.values), users, counters.values, r,
                           role, prefix, counterName, start, fullName, email, password, keyDraw, salt)
      ensures ehrs == old(ehrs) && packs == old(packs) && ehrNumbers == old(ehrNumbers)
      ensures r.Done? ==> users[|users| - 1].id == r.value.id && users[|users| - 1].pub == PubOf(r.value.privateKey)
    {
      if email == "" || password == "" {
        return Fail(400);
      }
      if EmailTaken(users, email) {
        return Fail(400);
      }
      var n := counters.GetNextCounter(counterName, start);
      var id := prefix + DecimalString(n);
      var keys := GenECKeypair(keyDraw);
      var hashed := Bcrypt(password, salt);
      BumpCounterKeepsInv(users, ehrs, packs, ehrNumbers, old(counters.values), counterName, n);
      // save() fails on the required fullName and on the unique index over id
      if fullName == "" || FirstUser(users, id).Some? {
        return Fail(500);
      }
      AddUserKeepsInv(users, ehrs, packs, ehrNumbers, counters.values,
                      User(id, role, fullName, email, hashed, keys.pub, keys.priv));
      users := users + [User(id, role, fullName, email, hashed, keys.pub, keys.priv)];
      r := Done(Registration(id, keys.priv));
    }

    /** POST /api/register/patient. */
    method RegisterPatient(fullName: string, email: string, password: string, keyDraw: PrivKey, salt: nat)
      returns (r: Reply<Registration>)
      requires Valid()
      modifies this, counters
      ensures Valid()
      ensures RegisterSpec(old(users), old(counters.values), users, counters.values, r,
                           Patient, "P", PatientCounter, PatientStart, fullName, email, password, keyDraw, salt)
      ensures ehrs == old(ehrs) && packs == old(packs)
      ensures r.Done? ==> users[|users| - 1].id == r.value.id && users[|users| - 1].pub == PubOf(r.value.privateKey)
    {
      r := Register(Patient, "P", PatientCounter, PatientStart, fullName, email, password, keyDraw, salt);
    }

    /** POST /api/register/doctor. */
    method RegisterDoctor(fullName: string, email: string, password: string, keyDraw: PrivKey, salt: nat)
      returns (r: Reply<Registration>)
      requires Valid()
      modifies this, counters
      ensures Valid()
      ensures RegisterSpec(old(users), old(counters.values), users, counters.values, r,
                           Doctor, "D", DoctorCounter, DoctorStart, fullName, email, password, keyDraw, salt)
      ensures ehrs == old(ehrs) && packs == old(packs)
      ensures r.Done? ==> users[|users| - 1].id == r.value.id && users[|users| - 1].pub == PubOf(r.value.privateKey)
    {
      r := Register(Doctor, "D", DoctorCounter, DoctorStart, fullName, email, password, keyDraw, salt);
    }

    /** The status upload-ehr answers before touching any store, if any. */
    static function UploadRejection(users: seq<User>, ownerId: string, file: Option<seq<byte>>): (code: Option<int>)
      ensures code.None? <==> ownerId != "" && file.Some? && FirstUser(users, ownerId).Some?
                              && users[FirstUser(users, ownerId).value].role == Patient
      ensures ownerId == "" || file.None? ==> code == Some(400)
      ensures ownerId != "" && file.Some? && FirstUser(users, ownerId).None? ==> code == Some(404)
      ensures ownerId != "" && file.Some? && FirstUser(users, ownerId).Some? ==>
                (users[FirstUser(users, ownerId).value].role != Patient ==> code == Some(400))
    {
      if ownerId == "" || file.None? then Some(400)
      else if FirstUser(users, ownerId).None? then Some(404)
      else if users[FirstUser(users, ownerId).value].role != Patient then Some(400)
      else None
    }

    /**
     * POST /api/upload-ehr. `dataKey` and `iv` are the random bytes of
     * `aesEncryptBuffer`, `eph` and `wrapIv` those of `wrapKeyToPub`.
     */
    method Upload(ownerId: string, filename: string, originalName: string, file: Option<seq<byte>>,
                  dataKey: seq<byte>, iv: seq<byte>, eph: PrivKey, wrapIv: seq<byte>)
      returns (r: Reply<string>)
      requires Valid() && |dataKey| == 32 && |iv| == 12 && |wrapIv| == 12
      modifies this, counters
      ensures Valid()
      ensures users == old(users) && packs == old(packs)
      ensures UploadRejection(users, ownerId, file).Some? ==>
                && r == Fail(UploadRejection(users, ownerId, file).value)
                && ehrs == old(ehrs) && counters.values == old(counters.values)
      ensures UploadRejection(users, ownerId, file).None? ==>
                var n := NextCounter(old(counters.values), EhrCounter, EhrStart);
                && counters.values == old(counters.values)[EhrCounter := n]
                && r == Done("EHR" + DecimalString(n))
                && ehrs == old(ehrs) + [Envelope("EHR" + DecimalString(n), ownerId, users[FirstUser(users, ownerId).value].pub,
                                                 if filename != "" then filename else originalName,
                                                 file.value, dataKey, iv, eph, wrapIv)]
    {
      var rejection := UploadRejection(users, ownerId, file);
      if rejection.Some? {
        return Fail(rejection.value);
      }
      var owner := users[FirstUser(users, ownerId).value];
      var name := if filename != "" then filename else originalName;
      UploadKeepsInv(users, ehrs, packs, ehrNumbers, counters.values, ownerId, name, file.value, dataKey, iv, eph, wrapIv);
      var n := counters.GetNextCounter(EhrCounter, EhrStart);
      var id := "EHR" + DecimalString(n);
      var e := Envelope(id, ownerId, owner.pub, name, file.value, dataKey, iv, eph, wrapIv);
      ehrs, ehrNumbers, r := ehrs + [e], ehrNumbers + [n], Done(id);
    }

    /**
     * POST /api/request-access. `reqId` is the fresh id drawn by `uuidv4()`,
     * so no stored request carries it yet.
     */
    method RequestAccess(doctorId: string, ehrId: string, reqId: string) returns (r: Reply<string>)
      requires Valid() && FirstEhrWithRequest(ehrs, reqId).None?
      modifies this
      ensures Valid()
      ensures users == old(users) && packs == old(packs) && ehrNumbers == old(ehrNumbers)
      ensures FirstUser(users, doctorId).None? || FirstEhr(old(ehrs), ehrId).None? ==>
                r == Fail(404) && ehrs == old(ehrs)
      ensures FirstUser(users, doctorId).Some? && FirstEhr(old(ehrs), ehrId).Some? ==>
                var i := FirstEhr(old(ehrs), ehrId).value;
                var e := old(ehrs)[i];
                && ehrs == old(ehrs)[i := e.(accessRequests := e.accessRequests + [AccessRequest(reqId, doctorId, Pending)])]
                && r == Done(reqId)
                && FirstEhrWithRequest(ehrs, reqId) == Some(i)
    {
      var doc := FirstUser(users, doctorId);
      if doc.None? {
        return Fail(404);
      }
      var at := FirstEhr(ehrs, ehrId);
      if at.None? {
        return Fail(404);
      }
      var i := at.value;
      var reqs := ehrs[i].accessRequests + [AccessRequest(reqId, doctorId, Pending)];
      UpdateRequestsKeepsInv(users, ehrs, packs, ehrNumbers, counters.values, i, reqs);
      FirstEhrWithNewRequest(ehrs, i, AccessRequest(reqId, doctorId, Pending));
      ehrs := ehrs[i := ehrs[i].(accessRequests := reqs)];
      r := Done(reqId);
    }

    /**
     * POST /api/approve-request (the first of the two registrations of this
     * route). `eph` and `wrapIv` are the random draws of `wrapKeyToPub`.
     */
    method Approve(requestId: string, ownerPriv: PrivKey, eph: PrivKey, wrapIv: seq<byte>) returns (r: Reply<string>)
      requires Valid() && |wrapIv| == 12
      modifies this
      ensures Valid()
      ensures users == old(users) && ehrNumbers == old(ehrNumbers)
      ensures ApproveSpec(users, old(ehrs), old(packs), ehrs, packs, r, requestId, ownerPriv, eph, wrapIv)
      ensures r.Done? ==>
                var a := ApproveChecks(users, old(ehrs), requestId, ownerPriv).value;
                && FirstUser(users, old(ehrs)[a.i].ownerId).Some?
                && ownerPriv == users[FirstUser(users, old(ehrs)[a.i].ownerId).value].priv
                && Unwrap(packs[|packs| - 1].rewrap, users[a.u].priv) == Ok(a.symKeyHex)
    {
      var checked := ApproveChecks(users, ehrs, requestId, ownerPriv);
      if checked.Fail? {
        return Fail(checked.code);
      }
      var a := checked.value;
      var e := ehrs[a.i];
      var req := e.accessRequests[a.k];
      var doctor := users[a.u];
      var rewrap := WrapKeyToPub(a.symKeyHex, doctor.pub, eph, wrapIv);
      var packId := e.id + "::" + req.doctorId;
      var pack := WrapPack(e.id, req.doctorId, rewrap);
      ApproveKeepsInv(users, ehrs, packs, ehrNumbers, counters.values, a.i, a.k, ownerPriv, a.u, eph, wrapIv);
      var e' := e.(accessRequests := e.accessRequests[a.k := req.(status := Approved)]);
      assert Inv(users, ehrs[a.i := e'], packs + [pack], ehrNumbers, counters.values);
      // WrapPack.create, then updateOne setting the status of the matching request
      packs := packs + [pack];
      ehrs := ehrs[a.i := e'];
      r := Done(packId);
    }

    /**
     * POST /api/fetch-ehr: the EHR (404), a pack for this EHR and doctor
     * (403), unwrapping the pack with the given key (403), a non-empty stored
     * file (404), decrypting it (403).
     */
    method Fetch(doctorId: string, doctorPriv: PrivKey, ehrId: string) returns (r: Reply<Fetched>)
      ensures FirstEhr(ehrs, ehrId).None? ==> r == Fail(404)
      ensures FirstEhr(ehrs, ehrId).Some? && FirstPack(packs, ehrId, doctorId).None? ==> r == Fail(403)
      ensures r.Done? ==>
                && FirstEhr(ehrs, ehrId).Some? && FirstPack(packs, ehrId, doctorId).Some?
                && |r.value.data| > 0
                && r.value == Fetched(ehrs[FirstEhr(ehrs, ehrId).value].filename,
                                      ehrs[FirstEhr(ehrs, ehrId).value].file.plaintext)
                && Unwrap(packs[FirstPack(packs, ehrId, doctorId).value].rewrap, doctorPriv).Ok?
      ensures r.Fail? ==> r.code in {403, 404}
      ensures FirstEhr(ehrs, ehrId).Some? && FirstPack(packs, ehrId, doctorId).Some? ==>
                var unwrapped := Unwrap(packs[FirstPack(packs, ehrId, doctorId).value].rewrap, doctorPriv);
                && (unwrapped.Err? ==> r == Fail(403))
                && (unwrapped.Ok? && |ehrs[FirstEhr(ehrs, ehrId).value].file.plaintext| == 0 ==> r == Fail(404))
      ensures Valid() && FirstEhr(ehrs, ehrId).Some? && FirstPack(packs, ehrId, doctorId).Some? ==>
                FirstUser(users, doctorId).Some?
      ensures Valid() && r.Done? ==>
                && doctorPriv == users[FirstUser(users, doctorId).value].priv
                && HasApproved(ehrs[FirstEhr(ehrs, ehrId).value].accessRequests, doctorId)
      ensures Valid() && FirstEhr(ehrs, ehrId).Some? && FirstPack(packs, ehrId, doctorId).Some? ==>
                var e := ehrs[FirstEhr(ehrs, ehrId).value];
                && (doctorPriv == users[FirstUser(users, doctorId).value].priv && |e.file.plaintext| > 0
                    ==> r == Done(Fetched(e.filename, e.file.plaintext)))
                && (doctorPriv == users[FirstUser(users, doctorId).value].priv && |e.file.plaintext| == 0
                    ==> r == Fail(404))
                && (doctorPriv != users[FirstUser(users, doctorId).value].priv ==> r == Fail(403))
    {
      var at := FirstEhr(ehrs, ehrId);
      if at.None? {
        return Fail(404);
      }
      var e := ehrs[at.value];
      var found := FirstPack(packs, ehrId, doctorId);
      if found.None? {
        return Fail(403);
      }
      var pack := packs[found.value];
      ghost var sound := Valid();
      if sound {
        FetchAuthorized(users, ehrs, packs, ehrNumbers, counters.values, found.value, doctorPriv);
      }
      var unwrapped := Unwrap(pack.rewrap, doctorPriv);
      if unwrapped.Err? {
        return Fail(403);
      }
      if |e.file.plaintext| == 0 {
        return Fail(404);
      }
      var plaintext := AesDecryptBuffer(e.file, e.iv, e.tag, unwrapped.value);
      if plaintext.Err? {
        return Fail(403);
      }
      r := Done(Fetched(e.filename, plaintext.value));
    }

    /** GET /api/pending-requests/:ownerId. */
    method PendingRequests(ownerId: string) returns (items: seq<PendingItem>)
      ensures items == PendingOf(users, ehrs, ownerId)
    {
      items := [];
      var i := 0;
      while i < |ehrs|
        invariant 0 <= i <= |ehrs|
        invariant items == PendingOf(users, ehrs[..i], ownerId)
      {
        var e := ehrs[i];
        assert ehrs[..i + 1][..i] == ehrs[..i];
        if e.ownerId == ownerId {
          var j := 0;
          while j < |e.accessRequests|
            invariant 0 <= j <= |e.accessRequests|
            invariant items == PendingOf(users, ehrs[..i], ownerId) + PendingIn(users, e, e.accessRequests[..j])
          {
            var q := e.accessRequests[j];
            assert e.accessRequests[..j + 1][..j] == e.accessRequests[..j];
            if q.status == Pending {
              items := items + [PendingItem(q.doctorId, DoctorName(users, q.doctorId), e.id, q.id)];
            }
            j := j + 1;
          }
          assert e.accessRequests[..j] == e.accessRequests;
        }
        i := i + 1;
      }
      assert ehrs[..i] == ehrs;
    }
  }
}
