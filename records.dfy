/**
 * The documents of the record store (users, EHR envelopes with their access
 * requests, wrap packs) and the `findOne` lookups the route handlers run on
 * them. A lookup returns the position of the first matching document, as a
 * query without a sort returns the first document in natural order.
 */
module Records {
  import opened Wrappers
  import opened Encoding
  import opened Crypto

  datatype Role = Patient | Doctor

  /** A bcrypt hash, opaque: the password and the salt drawn for it. */
  datatype PasswordHash = Bcrypt(password: string, salt: nat)

  datatype User = User(id: string, role: Role, fullName: string, email: string,
                       passwordHash: PasswordHash, pub: PubKey, priv: PrivKey)

  datatype RequestStatus = Pending | Approved

  datatype AccessRequest = AccessRequest(id: string, doctorId: string, status: RequestStatus)

  /** An EHR document: the sealed file, its IV and tag, the data key wrapped to the owner, the requests. */
  datatype Ehr = Ehr(id: string, ownerId: string, filename: string, file: Ciphertext, iv: string,
                     tag: AuthTag, wrappedToOwner: Option<WrapArtifact>, accessRequests: seq<AccessRequest>)

  /** A wrap pack: the data key of EHR `ehrId` wrapped to doctor `doctorId`. */
  datatype WrapPack = WrapPack(ehrId: string, doctorId: string, rewrap: WrapArtifact)

  /** `User.findOne({id})`. */
  function FirstUser(users: seq<User>, id: string): (r: Option<nat>)
    ensures r.Some? ==> r.value < |users| && users[r.value].id == id
                        && forall j :: 0 <= j < r.value ==> users[j].id != id
    ensures r.None? ==> forall j :: 0 <= j < |users| ==> users[j].id != id
  {
    if users == [] then None
    else if users[0].id == id then Some(0)
    else match FirstUser(users[1..], id)
      case None => None
      case Some(k) => Some(k + 1)
  }

  /** `User.findOne({email})` finds a document. */
  predicate EmailTaken(users: seq<User>, email: string) {
    exists j :: 0 <= j < |users| && users[j].email == email
  }

  /** `EHR.findOne({id})`. */
  function FirstEhr(ehrs: seq<Ehr>, id: string): (r: Option<nat>)
    ensures r.Some? ==> r.value < |ehrs| && ehrs[r.value].id == id
                        && forall j :: 0 <= j < r.value ==> ehrs[j].id != id
    ensures r.None? ==> forall j :: 0 <= j < |ehrs| ==> ehrs[j].id != id
  {
    if ehrs == [] then None
    else if ehrs[0].id == id then Some(0)
    else match FirstEhr(ehrs[1..], id)
      case None => None
      case Some(k) => Some(k + 1)
  }

  /** `accessRequests.find(r => r.id === requestId)`. */
  function FirstRequest(reqs: seq<AccessRequest>, id: string): (r: Option<nat>)
    ensures r.Some? ==> r.value < |reqs| && reqs[r.value].id == id
                        && forall j :: 0 <= j < r.value ==> reqs[j].id != id
    ensures r.None? ==> forall j :: 0 <= j < |reqs| ==> reqs[j].id != id
  {
    if reqs == [] then None
    else if reqs[0].id == id then Some(0)
    else match FirstRequest(reqs[1..], id)
      case None => None
      case Some(k) => Some(k + 1)
  }

  /** `EHR.findOne({"accessRequests.id": requestId})`. */
  function FirstEhrWithRequest(ehrs: seq<Ehr>, requestId: string): (r: Option<nat>)
    ensures r.Some? ==> r.value < |ehrs| && FirstRequest(ehrs[r.value].accessRequests, requestId).Some?
                        && forall j :: 0 <= j < r.value ==> FirstRequest(ehrs[j].accessRequests, requestId).None?
    ensures r.None? ==> forall j :: 0 <= j < |ehrs| ==> FirstRequest(ehrs[j].accessRequests, requestId).None?
  {
    if ehrs == [] then None
    else if FirstRequest(ehrs[0].accessRequests, requestId).Some? then Some(0)
    else match FirstEhrWithRequest(ehrs[1..], requestId)
      case None => None
      case Some(k) => Some(k + 1)
  }

  /** `WrapPack.findOne({ehrId, doctorId})`. */
  function FirstPack(packs: seq<WrapPack>, ehrId: string, doctorId: string): (r: Option<nat>)
    ensures r.Some? ==> r.value < |packs| && packs[r.value].ehrId == ehrId && packs[r.value].doctorId == doctorId
                        && forall j :: 0 <= j < r.value ==> !(packs[j].ehrId == ehrId && packs[j].doctorId == doctorId)
    ensures r.None? ==> forall j :: 0 <= j < |packs| ==> !(packs[j].ehrId == ehrId && packs[j].doctorId == doctorId)
  {
    if packs == [] then None
    else if packs[0].ehrId == ehrId && packs[0].doctorId == doctorId then Some(0)
    else match FirstPack(packs[1..], ehrId, doctorId)
      case None => None
      case Some(k) => Some(k + 1)
  }

  /** Appending a user does not change which user an existing id finds. */
  lemma FirstUserAppend(users: seq<User>, u: User, id: string)
    requires FirstUser(users, id).Some?
    ensures FirstUser(users + [u], id) == FirstUser(users, id)
  {
    var k := FirstUser(users, id).value;
    var r := FirstUser(users + [u], id);
    assert (users + [u])[k] == users[k];
  }

  /** Appending an EHR does not change which EHR an existing id finds. */
  lemma FirstEhrAppend(ehrs: seq<Ehr>, e: Ehr, id: string)
    requires FirstEhr(ehrs, id).Some?
    ensures FirstEhr(ehrs + [e], id) == FirstEhr(ehrs, id)
  {
    var k := FirstEhr(ehrs, id).value;
    var r := FirstEhr(ehrs + [e], id);
    assert (ehrs + [e])[k] == ehrs[k];
  }

  /** Replacing an EHR by one with the same id does not change what any id finds. */
  lemma FirstEhrUpdate(ehrs: seq<Ehr>, i: nat, e: Ehr, id: string)
    requires i < |ehrs| && e.id == ehrs[i].id
    ensures FirstEhr(ehrs[i := e], id) == FirstEhr(ehrs, id)
  {
    var ehrs' := ehrs[i := e];
    assert forall j :: 0 <= j < |ehrs| ==> ehrs'[j].id == ehrs[j].id;
    var r, r' := FirstEhr(ehrs, id), FirstEhr(ehrs', id);
    if r.Some? && r'.Some? {
      assert ehrs'[r.value].id == id;
      assert ehrs[r'.value].id == id;
    }
  }

  /** A request id that no EHR holds, appended to EHR `i`, is found there. */
  lemma FirstEhrWithNewRequest(ehrs: seq<Ehr>, i: nat, q: AccessRequest)
    requires i < |ehrs| && FirstEhrWithRequest(ehrs, q.id).None?
    ensures FirstEhrWithRequest(ehrs[i := ehrs[i].(accessRequests := ehrs[i].accessRequests + [q])], q.id) == Some(i)
  {
    var reqs := ehrs[i].accessRequests + [q];
    var ehrs' := ehrs[i := ehrs[i].(accessRequests := reqs)];
    assert FirstRequest(ehrs[i].accessRequests, q.id).None?;
    assert reqs[|reqs| - 1] == q;
    assert FirstRequest(reqs, q.id).Some?;
    assert ehrs'[i].accessRequests == reqs;
    assert forall j :: 0 <= j < i ==> ehrs'[j] == ehrs[j];
    assert forall j :: 0 <= j < i ==> FirstRequest(ehrs'[j].accessRequests, q.id).None?;
  }

  /** Some request of `doctorId` among `reqs` has been approved. */
  predicate HasApproved(reqs: seq<AccessRequest>, doctorId: string) {
    exists k :: 0 <= k < |reqs| && reqs[k].doctorId == doctorId && reqs[k].status == Approved
  }

  /** `!wrapped || !ephPub || !iv || !tag` is false: all four fields are non-empty strings. */
  predicate WrapFieldsPresent(w: Option<WrapArtifact>) {
    w.Some? && |w.value.wrapped.plaintext| > 0 && w.value.iv != ""
  }

  /** `w` unwraps under `priv` to a key that decrypts the file of `e`. */
  predicate Opens(w: WrapArtifact, priv: PrivKey, e: Ehr) {
    match Unwrap(w, priv)
    case Ok(symKeyHex) => AesDecryptBuffer(e.file, e.iv, e.tag, symKeyHex).Ok?
    case Err(_) => false
  }
}
