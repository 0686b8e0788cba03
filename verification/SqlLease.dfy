/** Creating one SQL lease, and undoing it when the answer does not hold up. */
module SqlLease {
  import opened Wrappers
  import opened JsonValues
  import opened TextTools
  import opened Resources

  const MAX_SQL_IDENTIFIER_BYTES := 256
  const MAX_SQL_LEASE_PASSWORD_BYTES := 1_024
  const SQL_DATABASE := "sql-database"

  /** The fields later code looks at; `raw` is the tree they were read from. */
  datatype Lease = Lease(id: string, dynamicSecretId: string, externalEntityId: string, raw: Json)

  datatype Secret = Secret(id: string, name: string, provider: string, raw: Json)

  datatype Credentials = Credentials(username: string, password: string)

  datatype Created = Created(lease: Lease, secret: Secret, username: string, password: string)

  datatype ResourceError = InvalidSecretResponse | InvalidLeaseResponse | ClientFault(code: nat)

  /** Reading and validating the two records is the deserializer's and the records' own business. */
  datatype Readers = Readers(
    readLease: Json -> Option<Lease>,
    leaseValid: Lease -> bool,
    readSecret: Json -> Option<Secret>,
    secretValid: Secret -> bool)

  function Get(v: Json, key: string): Option<Json> {
    if v.Obj? && key in v.fields then Some(v.fields[key]) else None
  }

  function GetText(v: Json, key: string): Option<string> {
    match Get(v, key)
    case Some(Str(text)) => Some(text)
    case _ => None
  }

  /** A record read from an object takes its identifiers from the members of those names, and only
      UUIDs are valid lease identifiers. Nothing is said of records read from arrays. */
  ghost predicate Faithful(h: Readers) {
    && (forall v: Json :: v.Obj? && h.readLease(v).Some? ==>
          GetText(v, "id") == Some(h.readLease(v).value.id)
          && GetText(v, "dynamicSecretId") == Some(h.readLease(v).value.dynamicSecretId))
    && (forall lease: Lease :: h.leaseValid(lease) ==> IsUuid(lease.id))
  }

  // ---------- the lease a response makes this client responsible for ----------

  function CleanupTarget(response: Json, expectedId: string, expectedName: string): Option<string> {
    match Get(response, "lease")
    case None => None
    case Some(lease) =>
      match (GetText(lease, "dynamicSecretId"), GetText(lease, "id"))
      case (Some(owner), Some(id)) =>
        if !IsUuid(id) then None
        else if owner == expectedId then Some(id)
        else
          (match Get(response, "dynamicSecret")
           case None => None
           case Some(secret) =>
             match GetText(secret, "id")
             case None => None
             case Some(returned) =>
               if !IsUuid(returned) || returned != owner
                  || GetText(secret, "name") != Some(expectedName)
                  || GetText(secret, "type") != Some(SQL_DATABASE)
               then None else Some(id))
      case _ => None
  }

  function At(v: Json, path: seq<string>): Option<Json> {
    if path == [] then Some(v)
    else match Get(v, path[0]) case None => None case Some(child) => At(child, path[1..])
  }

  ghost predicate TextAt(v: Json, record: string, key: string, text: string) {
    At(v, [record, key]) == Some(Str(text))
  }

  /** `id` is the response's own lease, owned by the expected secret or by an SQL secret of the same
      name that replaced it. */
  ghost predicate OwnedLease(response: Json, expectedId: string, expectedName: string, id: string) {
    && TextAt(response, "lease", "id", id) && IsUuid(id)
    && exists owner ::
         && TextAt(response, "lease", "dynamicSecretId", owner)
         && (owner == expectedId
             || (IsUuid(owner)
                 && TextAt(response, "dynamicSecret", "id", owner)
                 && TextAt(response, "dynamicSecret", "name", expectedName)
                 && TextAt(response, "dynamicSecret", "type", SQL_DATABASE)))
  }

  lemma {:induction false} TwoSteps(v: Json, record: string, key: string, text: string)
    ensures TextAt(v, record, key, text) <==> Get(v, record).Some? && GetText(Get(v, record).value, key) == Some(text)
  {
    assert [record, key][1..] == [key] && [key][1..] == [];
    if Get(v, record).Some? {
      assert At(v, [record, key]) == At(Get(v, record).value, [key]);
      var child := Get(v, record).value;
      assert Get(child, key).Some? ==> At(child, [key]) == At(Get(child, key).value, []);
    }
  }

  lemma {:induction false} CleanupTargetIsOwned(response: Json, expectedId: string, expectedName: string)
    ensures forall id :: CleanupTarget(response, expectedId, expectedName) == Some(id) <==>
                         OwnedLease(response, expectedId, expectedName, id)
  {
    forall record, key, text
      ensures TextAt(response, record, key, text) <==>
              Get(response, record).Some? && GetText(Get(response, record).value, key) == Some(text)
    {
      TwoSteps(response, record, key, text);
    }
    forall id
      ensures CleanupTarget(response, expectedId, expectedName) == Some(id) <==>
              OwnedLease(response, expectedId, expectedName, id)
    {
      if CleanupTarget(response, expectedId, expectedName) == Some(id) {
        var owner := GetText(Get(response, "lease").value, "dynamicSecretId").value;
        assert TextAt(response, "lease", "dynamicSecretId", owner);
      }
    }
  }

  // ---------- what makes a response acceptable ----------

  function Parts(h: Readers, response: Json): Option<(Lease, Secret)> {
    if Get(response, "lease").None? || Get(response, "dynamicSecret").None? then None
    else
      match (h.readLease(Get(response, "lease").value), h.readSecret(Get(response, "dynamicSecret").value))
      case (Some(lease), Some(secret)) => Some((lease, secret))
      case _ => None
  }

  function SqlCredentials(response: Json): Option<Credentials> {
    match Get(response, "data")
    case Some(Obj(fields)) =>
      if |fields| != 2 then None
      else
        (match (GetText(Obj(fields), "DB_USERNAME"), GetText(Obj(fields), "DB_PASSWORD"))
         case (Some(username), Some(password)) => Some(Credentials(username, password))
         case _ => None)
    case _ => None
  }

  predicate CredentialsMatch(credentials: Credentials, lease: Lease) {
    && credentials.username == lease.externalEntityId
    && BoundedText(credentials.username, MAX_SQL_IDENTIFIER_BYTES)
    && BoundedText(credentials.password, MAX_SQL_LEASE_PASSWORD_BYTES)
  }

  /** The whole contract of a lease answer, in no particular order. */
  predicate Acceptable(h: Readers, response: Json, expectedId: string, name: string) {
    && Parts(h, response).Some?
    && var (lease, secret) := Parts(h, response).value;
       && h.leaseValid(lease) && lease.dynamicSecretId == expectedId
       && CleanupTarget(response, expectedId, name).Some?
       && h.secretValid(secret) && secret.name == name && secret.provider == SQL_DATABASE && secret.id == expectedId
       && SqlCredentials(response).Some? && CredentialsMatch(SqlCredentials(response).value, lease)
  }

  function Accepted(h: Readers, response: Json, expectedId: string, name: string): Created
    requires Acceptable(h, response, expectedId, name)
  {
    var (lease, secret) := Parts(h, response).value;
    var credentials := SqlCredentials(response).value;
    Created(lease, secret, credentials.username, credentials.password)
  }

  /** What the caller is told about a rejected response, given how a revocation would go. */
  function Rejection(target: Option<string>, revoking: string -> Result<(), ResourceError>): ResourceError {
    if target.Some? && revoking(target.value).Failure? then revoking(target.value).error else InvalidLeaseResponse
  }

  /** The upstream service: what it did, and how it answers. */
  class Upstream {
    var creations: nat
    var revocations: seq<string>
    const preflight: Result<Secret, ResourceError>
    const creation: Result<Json, ResourceError>
    const revoking: string -> Result<(), ResourceError>

    constructor (preflight: Result<Secret, ResourceError>, creation: Result<Json, ResourceError>,
                 revoking: string -> Result<(), ResourceError>)
      ensures creations == 0 && revocations == []
      ensures this.preflight == preflight && this.creation == creation && this.revoking == revoking
    {
      creations, revocations := 0, [];
      this.preflight, this.creation, this.revoking := preflight, creation, revoking;
    }

    method CreateLease() returns (r: Result<Json, ResourceError>)
      modifies this`creations
      ensures r == creation && creations == old(creations) + 1
    {
      creations := creations + 1;
      return creation;
    }

    method RevokeLease(id: string) returns (r: Result<(), ResourceError>)
      modifies this`revocations
      ensures r == revoking(id) && revocations == old(revocations) + [id]
    {
      revocations := revocations + [id];
      return revoking(id);
    }

    /** Revokes the lease of a rejected answer, if it is ours, and says what to report. */
    method Reject(target: Option<string>) returns (error: ResourceError)
      modifies this`revocations
      ensures revocations == if target.Some? then old(revocations) + [target.value] else old(revocations)
      ensures error == Rejection(target, revoking)
    {
      if target.Some? {
        var revoked := RevokeLease(target.value);
        if revoked.Failure? {
          return revoked.error;
        }
      }
      return InvalidLeaseResponse;
    }

    /** One creation attempt behind a preflight; afterwards either the answer was acceptable and
        nothing was revoked, or exactly the owned lease was, and once. */
    method CreateSqlLease(h: Readers, name: string) returns (r: Result<Created, ResourceError>)
      requires Faithful(h)
      modifies this
      ensures creations == old(creations) + (if Preflighted(preflight) then 1 else 0)
      ensures !Preflighted(preflight) || creation.Failure? ==> r.Failure? && revocations == old(revocations)
      ensures preflight.Failure? ==> r == Failure(preflight.error)
      ensures preflight.Success? && !Preflighted(preflight) ==> r == Failure(InvalidSecretResponse)
      ensures Preflighted(preflight) && creation.Failure? ==> r == Failure(creation.error)
      ensures Preflighted(preflight) && creation.Success? ==>
                (r, revocations) == After(h, creation.value, preflight.value.id, name, revoking, old(revocations))
    {
      var expected := preflight;
      if expected.Failure? {
        return Failure(expected.error);
      }
      if expected.value.provider != SQL_DATABASE {
        return Failure(InvalidSecretResponse);
      }
      var expectedId := expected.value.id;
      var answer := CreateLease();
      if answer.Failure? {
        return Failure(answer.error);
      }
      var response := answer.value;
      var target := CleanupTarget(response, expectedId, name);
      var parts := Parts(h, response);
      if parts.None? {
        var error := Reject(target);
        return Failure(error);
      }
      var lease, secret := parts.value.0, parts.value.1;
      if !h.leaseValid(lease) {
        var error := Reject(target);
        return Failure(error);
      }
      if lease.dynamicSecretId != expectedId {
        var error := Reject(target);
        return Failure(error);
      }
      if target.None? {
        return Failure(InvalidLeaseResponse);
      }
      if !h.secretValid(secret) {
        var error := Reject(target);
        return Failure(error);
      }
      if secret.name != name || secret.provider != SQL_DATABASE || secret.id != expectedId {
        var error := Reject(target);
        return Failure(error);
      }
      var credentials := SqlCredentials(response);
      if credentials.None? {
        var error := Reject(target);
        return Failure(error);
      }
      if !CredentialsMatch(credentials.value, lease) {
        var error := Reject(target);
        return Failure(error);
      }
      return Success(Created(lease, secret, credentials.value.username, credentials.value.password));
    }
  }

  predicate Preflighted(preflight: Result<Secret, ResourceError>) {
    preflight.Success? && preflight.value.provider == SQL_DATABASE
  }

  /** The outcome and the revocations made once the creation has been answered. */
  function After(h: Readers, response: Json, expectedId: string, name: string,
                 revoking: string -> Result<(), ResourceError>, before: seq<string>)
    : (Result<Created, ResourceError>, seq<string>)
  {
    var target := CleanupTarget(response, expectedId, name);
    if Acceptable(h, response, expectedId, name) then (Success(Accepted(h, response, expectedId, name)), before)
    else (Failure(Rejection(target, revoking)), if target.Some? then before + [target.value] else before)
  }

  /** Compensation, for every response tree. Success revokes nothing and binds lease, secret and user
      name to the preflighted secret, and the lease is the one that would have been revoked. A
      failure revokes the response's own lease once when it is owned, nothing when none is, and a
      failed revocation is what gets reported. */
  lemma {:induction false} CompensationIsExact(h: Readers, response: Json, expectedId: string, name: string,
                                               revoking: string -> Result<(), ResourceError>, before: seq<string>)
    requires Faithful(h)
    ensures
      var (r, revocations) := After(h, response, expectedId, name, revoking, before);
      match r
      case Success(created) =>
        && revocations == before
        && created.lease.dynamicSecretId == created.secret.id == expectedId
        && created.secret.name == name && created.secret.provider == SQL_DATABASE
        && created.username == created.lease.externalEntityId
        && TextAt(response, "data", "DB_USERNAME", created.username)
        && TextAt(response, "data", "DB_PASSWORD", created.password)
        && OwnedLease(response, expectedId, name, created.lease.id)
      case Failure(error) =>
        && (forall id :: OwnedLease(response, expectedId, name, id) ==>
              && revocations == before + [id]
              && error == if revoking(id).Failure? then revoking(id).error else InvalidLeaseResponse)
        && ((forall id :: !OwnedLease(response, expectedId, name, id)) ==>
              revocations == before && error == InvalidLeaseResponse)
  {
    CleanupTargetIsOwned(response, expectedId, name);
    var target := CleanupTarget(response, expectedId, name);
    if target.Some? {
      assert OwnedLease(response, expectedId, name, target.value);
    }
    if Acceptable(h, response, expectedId, name) {
      var created := Accepted(h, response, expectedId, name);
      TwoSteps(response, "data", "DB_USERNAME", created.username);
      TwoSteps(response, "data", "DB_PASSWORD", created.password);
      assert created.lease.id == target.value;
    }
  }

  // ---------- when creation succeeds ----------

  /** Not empty, at most so many bytes, and no control character. */
  predicate Shown(text: string, maxBytes: nat) {
    && 0 < |text| && Utf8Length(text) <= maxBytes
    && forall k :: 0 <= k < |text| ==> 0x20 <= text[k] as int && !(0x7F <= text[k] as int <= 0x9F)
  }

  /** What the caller gets, read off the answer: both records valid and agreeing with the preflight,
      the lease an object, and "data" the two credentials and nothing else. */
  ghost predicate Earned(h: Readers, response: Json, expectedId: string, name: string, created: Created) {
    && response.Obj? && "lease" in response.fields && "dynamicSecret" in response.fields && "data" in response.fields
    && response.fields["lease"].Obj?
    && h.readLease(response.fields["lease"]) == Some(created.lease) && h.leaseValid(created.lease)
    && h.readSecret(response.fields["dynamicSecret"]) == Some(created.secret) && h.secretValid(created.secret)
    && created.lease.dynamicSecretId == expectedId
    && created.secret.id == expectedId && created.secret.name == name && created.secret.provider == "sql-database"
    && response.fields["data"]
       == Obj(map["DB_USERNAME" := Str(created.username), "DB_PASSWORD" := Str(created.password)])
    && created.username == created.lease.externalEntityId
    && Shown(created.username, 256) && Shown(created.password, 1024)
  }

  lemma {:induction false} TwoMembers(fields: map<string, Json>, a: string, b: string)
    requires a != b && a in fields && b in fields
    ensures |fields| == 2 <==> fields == map[a := fields[a], b := fields[b]]
  {
    var rest := fields.Keys - {a, b};
    assert fields.Keys == rest + {a, b};
    assert |fields| == |fields.Keys| == |rest| + |{a, b}|;
    if |fields| == 2 {
      assert rest == {};
    }
  }

  lemma {:induction false} CredentialsIff(response: Json, username: string, password: string)
    ensures SqlCredentials(response) == Some(Credentials(username, password)) <==>
            && response.Obj? && "data" in response.fields
            && response.fields["data"] == Obj(map["DB_USERNAME" := Str(username), "DB_PASSWORD" := Str(password)])
  {
    var wanted := map["DB_USERNAME" := Str(username), "DB_PASSWORD" := Str(password)];
    if response.Obj? && "data" in response.fields && response.fields["data"].Obj? {
      var fields := response.fields["data"].fields;
      if fields == wanted {
        assert fields.Keys == {"DB_USERNAME", "DB_PASSWORD"};
      }
      if "DB_USERNAME" in fields && "DB_PASSWORD" in fields {
        TwoMembers(fields, "DB_USERNAME", "DB_PASSWORD");
      }
    }
  }

  lemma {:induction false} ShownIff(text: string, maxBytes: nat)
    ensures BoundedText(text, maxBytes) <==> Shown(text, maxBytes)
  {
    if Shown(text, maxBytes) {
      forall c | c in text
        ensures !IsControl(c)
      {
        var k :| 0 <= k < |text| && text[k] == c;
      }
    }
    if BoundedText(text, maxBytes) {
      forall k | 0 <= k < |text|
        ensures 0x20 <= text[k] as int && !(0x7F <= text[k] as int <= 0x9F)
      {
        assert text[k] in text && !IsControl(text[k]);
      }
    }
  }

  /** With a valid lease for the expected secret there is something to revoke exactly when it was
      read from an object. */
  lemma {:induction false} TargetOfLease(h: Readers, response: Json, expectedId: string, name: string)
    requires Faithful(h) && Get(response, "lease").Some?
    requires h.readLease(Get(response, "lease").value).Some?
    requires
      var lease := h.readLease(Get(response, "lease").value).value;
      h.leaseValid(lease) && lease.dynamicSecretId == expectedId
    ensures CleanupTarget(response, expectedId, name).Some? <==> Get(response, "lease").value.Obj?
  {
  }

  lemma {:induction false} AcceptedIff(h: Readers, response: Json, expectedId: string, name: string, created: Created)
    requires Faithful(h)
    ensures Acceptable(h, response, expectedId, name) && Accepted(h, response, expectedId, name) == created <==>
            Earned(h, response, expectedId, name, created)
  {
    CredentialsIff(response, created.username, created.password);
    ShownIff(created.username, 256);
    ShownIff(created.password, 1024);
    if Parts(h, response).Some? {
      var (lease, secret) := Parts(h, response).value;
      if h.leaseValid(lease) && lease.dynamicSecretId == expectedId {
        TargetOfLease(h, response, expectedId, name);
      }
    }
  }

  /** A creation succeeds, with these records and credentials, exactly when the answer itself holds
      them; any other answer is rejected. */
  lemma {:induction false} SuccessIsExact(h: Readers, response: Json, expectedId: string, name: string,
                                          revoking: string -> Result<(), ResourceError>, before: seq<string>)
    requires Faithful(h)
    ensures
      var (r, revocations) := After(h, response, expectedId, name, revoking, before);
      && (forall created :: r == Success(created) <==> Earned(h, response, expectedId, name, created))
      && (r.Success? <==> exists created :: Earned(h, response, expectedId, name, created))
  {
    var (r, revocations) := After(h, response, expectedId, name, revoking, before);
    forall created
      ensures r == Success(created) <==> Earned(h, response, expectedId, name, created)
    {
      AcceptedIff(h, response, expectedId, name, created);
    }
    if r.Success? {
      assert Earned(h, response, expectedId, name, r.value);
    }
  }
}
