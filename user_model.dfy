/** The user model's write hooks (password hashing and role joining, run before every
    insert and update) and the user entity's read side: the csv cast on `role`, the public
    array the API hands out, and the password check. password_hash and password_verify
    are passed in. */
module UserModel {
  import opened Text
  import opened Php
  import Filters

  // ----- write hooks -----

  /** hashPassword: an empty password (absent, "", "0", null...) is dropped so the stored
      hash is kept; any other password is replaced by its hash. */
  function HashPassword(row: Row, hash: string -> string): (r: Row)
    ensures "password" in r <==> !IsEmpty(row, "password")
    ensures "password" in r ==> r["password"] == Str(hash(ToPhpString(row["password"])))
  {
    if IsEmpty(row, "password") then row - {"password"}
    else row["password" := Str(hash(ToPhpString(row["password"])))]
  }

  /** Every field other than the password keeps its presence and value. */
  lemma HashPasswordKeepsOtherFields(row: Row, hash: string -> string)
    ensures forall k :: k != "password" ==> (k in HashPassword(row, hash) <==> k in row)
    ensures forall k :: k != "password" && k in row ==> HashPassword(row, hash)[k] == row[k]
  {
  }

  /** formatRole: a non-empty role list is stored as its elements joined by commas;
      anything else is left as it is. */
  function FormatRole(row: Row): (r: Row)
    ensures r.Keys == row.Keys
    ensures forall k :: k in row && k != "role" ==> r[k] == row[k]
    ensures "role" in row && row["role"].Arr? && row["role"].items != [] ==>
      r["role"] == Str(Implode(',', row["role"].items))
    ensures !("role" in row && row["role"].Arr? && row["role"].items != []) ==> r == row
  {
    if !IsEmpty(row, "role") && row["role"].Arr? then row["role" := Str(Implode(',', row["role"].items))]
    else row
  }

  /** Joining is done once: a second pass changes nothing. */
  lemma FormatRoleIdempotent(row: Row)
    ensures FormatRole(FormatRole(row)) == FormatRole(row)
  {
  }

  /** The beforeInsert and beforeUpdate callbacks, in their declared order. */
  function BeforeWrite(row: Row, hash: string -> string): (r: Row)
    ensures r.Keys == if IsEmpty(row, "password") then row.Keys - {"password"} else row.Keys + {"password"}
    ensures forall k :: k in row && k != "password" && k != "role" ==> r[k] == row[k]
  {
    FormatRole(HashPassword(row, hash))
  }

  // ----- entity read side -----

  /** The csv cast reading `role`: a stored string is split on commas; null stays null. */
  function CsvGet(v: Value): (r: Value)
    ensures v.Str? ==> r.Arr? && |r.items| > 0
  {
    match v
    case Str(s) => Arr(StrList(Split(',', s)))
    case _ => v
  }

  function StrList(xs: seq<string>): (r: seq<Value>)
    ensures |r| == |xs| && forall i :: 0 <= i < |xs| ==> r[i] == Str(xs[i])
  {
    seq(|xs|, i requires 0 <= i < |xs| => Str(xs[i]))
  }

  function Names(vs: seq<Value>): seq<string>
    requires forall i :: 0 <= i < |vs| ==> vs[i].Str?
  {
    seq(|vs|, i requires 0 <= i < |vs| => vs[i].s)
  }

  /** Implode of a list of strings is their comma join. */
  lemma ImplodeStrings(vs: seq<Value>)
    requires forall i :: 0 <= i < |vs| ==> vs[i].Str?
    ensures Implode(',', vs) == Join(',', Names(vs))
  {
    assert seq(|vs|, i requires 0 <= i < |vs| => ToPhpString(vs[i])) == Names(vs);
  }

  /** Write then read: a non-empty list of role names without commas is stored joined and
      read back through the csv cast as the same list. */
  lemma {:induction false} RoleRoundTrip(row: Row, hash: string -> string, roles: seq<Value>)
    requires "role" in row && row["role"] == Arr(roles) && roles != []
    requires forall i :: 0 <= i < |roles| ==> roles[i].Str? && ',' !in roles[i].s
    ensures CsvGet(BeforeWrite(row, hash)["role"]) == Arr(roles)
  {
    ImplodeStrings(roles);
    SplitJoin(',', Names(roles));
    assert StrList(Names(roles)) == roles;
  }

  /** A user saved with "Admin" among its roles passes the admin gate once read back. */
  lemma AdminRoleSurvivesStorage(row: Row, hash: string -> string, roles: seq<Value>, user: Row)
    requires "role" in row && row["role"] == Arr(roles) && roles != []
    requires forall i :: 0 <= i < |roles| ==> roles[i].Str? && ',' !in roles[i].s
    requires Str("Admin") in roles
    requires "role" in user && user["role"] == CsvGet(BeforeWrite(row, hash)["role"])
    ensures Filters.IsAdminUser(Some(user))
  {
    RoleRoundTrip(row, hash, roles);
  }

  const PublicKeys: set<string> :=
    {"id", "email", "name", "phone", "bio", "email_verified", "org_id", "tenant_id", "role",
     "created_at", "updated_at"}

  /** The value toPublicArray gives a public key: id, org_id and tenant_id cast to int,
      email_verified cast to bool, role read through the csv cast, the rest as stored. */
  function PublicValue(attributes: Row, k: string): Value {
    if k == "id" || k == "org_id" || k == "tenant_id" then Int(ToPhpInt(Get(attributes, k)))
    else if k == "email_verified" then Bool(Truthy(Get(attributes, k)))
    else if k == "role" then CsvGet(Get(attributes, k))
    else Get(attributes, k)
  }

  /** toPublicArray: the eleven public fields, with id, org_id and tenant_id cast to int,
      email_verified cast to bool and role read through the csv cast; a missing attribute
      reads as null. */
  function ToPublicArray(attributes: Row): (r: Row)
    ensures r.Keys == PublicKeys
    ensures r["id"] == Int(ToPhpInt(Get(attributes, "id")))
    ensures r["org_id"] == Int(ToPhpInt(Get(attributes, "org_id")))
    ensures r["tenant_id"] == Int(ToPhpInt(Get(attributes, "tenant_id")))
    ensures r["email_verified"] == Bool(Truthy(Get(attributes, "email_verified")))
    ensures r["role"] == CsvGet(Get(attributes, "role"))
    ensures r["email"] == Get(attributes, "email") && r["name"] == Get(attributes, "name")
    ensures r["phone"] == Get(attributes, "phone") && r["bio"] == Get(attributes, "bio")
    ensures r["created_at"] == Get(attributes, "created_at") && r["updated_at"] == Get(attributes, "updated_at")
  {
    map k | k in PublicKeys :: PublicValue(attributes, k)
  }

  /** The public array never carries the password hash, the nonce or the deletion time. */
  lemma PublicArrayHidesSecrets(attributes: Row)
    ensures "password" !in ToPublicArray(attributes)
    ensures "nonce" !in ToPublicArray(attributes)
    ensures "deleted_at" !in ToPublicArray(attributes)
  {
    assert |"password"| == 8;
    assert "nonce"[0] == 'n';
    assert "deleted_at"[0] == 'd';
  }

  /** The entity's verifyPassword: password_verify against the stored hash. */
  function VerifyPassword(attributes: Row, password: string, passwordVerify: (string, string) -> bool): bool {
    passwordVerify(password, ToPhpString(Get(attributes, "password")))
  }

  /** Hash on write, verify on read: if password_verify accepts every password against its
      own hash, a non-empty password written through the hooks verifies afterwards, while
      a write with an empty password leaves the stored hash in place. */
  lemma StoredPasswordVerifies(stored: Row, row: Row, hash: string -> string, passwordVerify: (string, string) -> bool)
    requires forall p :: passwordVerify(p, hash(p))
    ensures !IsEmpty(row, "password") ==>
      VerifyPassword(stored + BeforeWrite(row, hash), ToPhpString(row["password"]), passwordVerify)
    ensures IsEmpty(row, "password") ==>
      Get(stored + BeforeWrite(row, hash), "password") == Get(stored, "password")
  {
  }
}
