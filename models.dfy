/**
 * The user model (`usuario/models.py`): the `Usuario` record, the table that
 * `Usuario.objects` gives access to, with its unique indexes on email and dni,
 * and the manager's `create_user` and `create_superuser`.
 */
module Models {
  import opened Wrappers
  import opened Hashers

  /** One row of the user table. `password` holds whatever was stored: normally an encoding made by `Hash`. */
  datatype Usuario = Usuario(
    id: int,
    username: string,
    email: string,
    dni: string,
    password: string,
    isActive: bool,
    isStaff: bool)

  /**
   * An instance built but not yet saved. `None` is a Python `None` passed to
   * the constructor; the username, email and dni columns are NOT NULL, so
   * saving such an instance fails.
   */
  datatype Draft = Draft(
    username: Option<string>,
    email: Option<string>,
    dni: Option<string>,
    password: string,
    isActive: bool,
    isStaff: bool)

  /** The exceptions the core lets through: a `ValueError` with its message, or the database's `IntegrityError`. */
  datatype Error = ValueError(message: string) | IntegrityError

  /** The object `create_superuser` returns: the saved row and the `is_admin` attribute set on the object alone. */
  datatype Superuser = Superuser(record: Usuario, isAdmin: bool)

  const MissingEmail: string := "El usuario debe tener un email"

  /** No NOT NULL column of the draft is `None`. */
  predicate Complete(d: Draft)
  {
    d.username.Some? && d.email.Some? && d.dni.Some?
  }

  /** The row a complete draft becomes when saved under `id`. */
  function Materialize(d: Draft, id: int): (u: Usuario)
    requires Complete(d)
  {
    Usuario(id, d.username.value, d.email.value, d.dni.value, d.password, d.isActive, d.isStaff)
  }

  /** Another row than `u`'s own already holds `u`'s email or dni, so a unique index refuses `u`. */
  predicate Clash(rows: map<int, Usuario>, u: Usuario)
  {
    exists k :: k in rows && k != u.id && (rows[k].email == u.email || rows[k].dni == u.dni)
  }

  /** `Usuario.objects.filter(email=email).exists()`: some row of the table has that email. */
  function EmailTaken(rows: map<int, Usuario>, email: string): (taken: bool)
    ensures taken <==> email in (set k | k in rows :: rows[k].email)
    ensures (forall k :: k in rows ==> rows[k].id == k) ==> (taken <==> exists u :: Stored(rows, u) && u.email == email)
  {
    var taken := exists k :: k in rows && rows[k].email == email;
    if taken && (forall k :: k in rows ==> rows[k].id == k) then
      var k :| k in rows && rows[k].email == email;
      assert Stored(rows, rows[k]);
      taken
    else
      taken
  }

  /** Some row of the table has that dni, so the dni's unique index refuses another. */
  function DniTaken(rows: map<int, Usuario>, dni: string): (taken: bool)
    ensures taken <==> dni in (set k | k in rows :: rows[k].dni)
    ensures (forall k :: k in rows ==> rows[k].id == k) ==> (taken <==> exists u :: Stored(rows, u) && u.dni == dni)
  {
    var taken := exists k :: k in rows && rows[k].dni == dni;
    if taken && (forall k :: k in rows ==> rows[k].id == k) then
      var k :| k in rows && rows[k].dni == dni;
      assert Stored(rows, rows[k]);
      taken
    else
      taken
  }

  /**
   * The table invariant: every row sits under its own id, below the next id
   * to hand out, and no two rows share an email or a dni.
   */
  ghost predicate WellFormed(rows: map<int, Usuario>, nextId: int)
  {
    && 0 < nextId
    && (forall k :: k in rows ==> rows[k].id == k && 0 < k < nextId)
    && (forall j, k :: j in rows && k in rows && j != k ==>
          rows[j].email != rows[k].email && rows[j].dni != rows[k].dni)
  }

  /** Storing a row that clashes with no other one, under its own id or the next fresh id, keeps the invariant. */
  lemma StoreKeepsWellFormed(rows: map<int, Usuario>, nextId: int, u: Usuario)
    requires WellFormed(rows, nextId)
    requires u.id in rows || u.id == nextId
    requires !Clash(rows, u)
    ensures WellFormed(rows[u.id := u], if u.id == nextId then nextId + 1 else nextId)
  {
  }

  /** A taken email or dni is a clash for every row not yet in the table. */
  lemma TakenIsClash(rows: map<int, Usuario>, u: Usuario)
    requires u.id !in rows
    ensures EmailTaken(rows, u.email) || DniTaken(rows, u.dni) <==> Clash(rows, u)
  {
  }

  /** `u` is the row the table holds under `u`'s id. */
  predicate Stored(rows: map<int, Usuario>, u: Usuario)
  {
    u.id in rows && rows[u.id] == u
  }

  /** `email` and `dni` are unique: two rows that agree on either are one row. */
  lemma RowsIdentifiedByEmailAndDni(rows: map<int, Usuario>, nextId: int, a: Usuario, b: Usuario)
    requires WellFormed(rows, nextId)
    requires Stored(rows, a) && Stored(rows, b)
    ensures a.email == b.email ==> a == b
    ensures a.dni == b.dni ==> a == b
  {
  }

  /** A row held by the table clashes with nothing when saved again unchanged. */
  lemma StoredRowDoesNotClash(rows: map<int, Usuario>, nextId: int, u: Usuario)
    requires WellFormed(rows, nextId)
    requires Stored(rows, u)
    ensures !Clash(rows, u)
  {
  }

  /** Python's `s.split(sep)` for a one-character separator: the pieces between separators, empty ones included. */
  function Split(s: string, sep: char): (parts: seq<string>)
    ensures |parts| >= 1
    decreases |s|
  {
    if s == [] then [""]
    else
      var rest := Split(s[1..], sep);
      if s[0] == sep then [""] + rest
      else [[s[0]] + rest[0]] + rest[1..]
  }

  /** Python's `sep.join(parts)`, the inverse of `Split`. */
  function Join(parts: seq<string>, sep: char): string
    requires |parts| >= 1
  {
    if |parts| == 1 then parts[0] else parts[0] + [sep] + Join(parts[1..], sep)
  }

  /** Joining the pieces of a split gives back the string. */
  lemma {:induction false} JoinSplit(s: string, sep: char)
    ensures Join(Split(s, sep), sep) == s
    decreases |s|
  {
    if s != [] {
      var rest := Split(s[1..], sep);
      JoinSplit(s[1..], sep);
      if s[0] == sep {
        assert ([""] + rest)[1..] == rest;
      } else {
        var parts := [[s[0]] + rest[0]] + rest[1..];
        if |rest| > 1 {
          assert parts[1..] == rest[1..];
          calc {
            Join(parts, sep);
            ([s[0]] + rest[0]) + [sep] + Join(rest[1..], sep);
            [s[0]] + (rest[0] + [sep] + Join(rest[1..], sep));
            [s[0]] + Join(rest, sep);
          }
        }
        assert [s[0]] + s[1..] == s;
      }
    }
  }

  /** The first piece of a split is the longest prefix free of the separator. */
  lemma {:induction false} SplitHead(s: string, sep: char)
    ensures Split(s, sep)[0] <= s
    ensures sep !in Split(s, sep)[0]
    ensures |Split(s, sep)[0]| == |s| || s[|Split(s, sep)[0]|] == sep
    decreases |s|
  {
    if s != [] && s[0] != sep {
      SplitHead(s[1..], sep);
      var h := Split(s[1..], sep)[0];
      assert Split(s, sep)[0] == [s[0]] + h;
      assert s == [s[0]] + s[1..];
    }
  }

  /**
   * `get_first_name`: the username up to its first space, or the empty string
   * for an empty username.
   */
  function GetFirstName(u: Usuario): (r: string)
    ensures r <= u.username && ' ' !in r
    ensures |r| == |u.username| || u.username[|r|] == ' '
  {
    if u.username != "" then
      SplitHead(u.username, ' ');
      Split(u.username, ' ')[0]
    else ""
  }

  /** `__str__`: a user prints as the email, the field it logs in with. */
  function Str(u: Usuario): string
  {
    u.email
  }

  /** Within one table `__str__` tells rows apart. */
  lemma StrIdentifiesRow(rows: map<int, Usuario>, nextId: int, a: Usuario, b: Usuario)
    requires WellFormed(rows, nextId)
    requires Stored(rows, a) && Stored(rows, b)
    ensures Str(a) == Str(b) <==> a == b
  {
    RowsIdentifiedByEmailAndDni(rows, nextId, a, b);
  }

  /**
   * `Usuario.objects`: the user table and the manager over it. The database's
   * auto-increment counter is `nextId`.
   */
  class UsuarioManager {
    var rows: map<int, Usuario>
    var nextId: int

    ghost predicate Valid()
      reads this
    {
      WellFormed(rows, nextId)
    }

    /** An empty table. */
    constructor ()
      ensures Valid() && rows == map[]
    {
      rows := map[];
      nextId := 1;
    }

    /** `save()` of a new instance: an INSERT under a fresh id, refused by a NOT NULL column or a unique index. */
    method Insert(d: Draft) returns (r: Result<Usuario, Error>)
      requires Valid()
      modifies this
      ensures Valid()
      ensures r.Ok? <==> Complete(d) && !Clash(old(rows), Materialize(d, old(nextId)))
      ensures r.Ok? ==> old(nextId) !in old(rows) && r.value == Materialize(d, old(nextId))
      ensures r.Ok? ==> rows == old(rows)[r.value.id := r.value]
      ensures r.Err? ==> r.error == IntegrityError && rows == old(rows) && nextId == old(nextId)
    {
      if !Complete(d) {
        return Err(IntegrityError);
      }
      var u := Materialize(d, nextId);
      if Clash(rows, u) {
        return Err(IntegrityError);
      }
      StoreKeepsWellFormed(rows, nextId, u);
      rows := rows[u.id := u];
      nextId := nextId + 1;
      r := Ok(u);
    }

    /** `save()` of an instance already stored: an UPDATE of its row, refused by a unique index. */
    method Save(u: Usuario) returns (r: Result<Usuario, Error>)
      requires Valid() && u.id in rows
      modifies this
      ensures Valid() && nextId == old(nextId)
      ensures r.Ok? <==> !Clash(old(rows), u)
      ensures r.Ok? ==> r.value == u && rows == old(rows)[u.id := u]
      ensures r.Err? ==> r.error == IntegrityError && rows == old(rows)
    {
      if Clash(rows, u) {
        return Err(IntegrityError);
      }
      StoreKeepsWellFormed(rows, nextId, u);
      rows := rows[u.id := u];
      r := Ok(u);
    }

    /** `delete()`: the row under `id` goes. */
    method Delete(id: int)
      requires Valid()
      modifies this
      ensures Valid() && nextId == old(nextId)
      ensures rows == old(rows) - {id}
    {
      rows := rows - {id};
    }

    /** `Usuario.objects.get(email=email)`, with `None` for `DoesNotExist`; the unique index rules out two matches. */
    function GetByEmail(email: string): (r: Option<Usuario>)
      reads this
      requires Valid()
      ensures r.Some? <==> EmailTaken(rows, email)
      ensures r.Some? ==> Stored(rows, r.value) && r.value.email == email
    {
      if EmailTaken(rows, email) then
        var k :| k in rows && rows[k].email == email;
        Some(rows[k])
      else None
    }

    /**
     * `create_user`: refuses a missing or empty email, normalises it with the
     * library's `normalize_email` (the parameter `normalize`), stores the
     * encoding of the password and saves the new row with the default flags.
     */
    method CreateUser(normalize: string -> string, email: Option<string>, username: string, dni: string,
                      password: Option<string>)
      returns (r: Result<Usuario, Error>)
      requires Valid()
      modifies this
      ensures Valid()
      ensures email.None? || email.value == "" ==> r == Err(ValueError(MissingEmail))
      ensures email.Some? && email.value != "" && EmailTaken(old(rows), normalize(email.value)) ==>
                r == Err(IntegrityError)
      ensures email.Some? && email.value != "" && DniTaken(old(rows), dni) ==> r == Err(IntegrityError)
      ensures r.Ok? <==> email.Some? && email.value != ""
                         && !EmailTaken(old(rows), normalize(email.value)) && !DniTaken(old(rows), dni)
      ensures r.Ok? ==> r.value.id == old(nextId) && r.value.id !in old(rows)
                        && rows == old(rows)[r.value.id := r.value]
      ensures r.Ok? ==> r.value.email == normalize(email.value) && r.value.username == username && r.value.dni == dni
      ensures r.Ok? ==> r.value.password == MakePassword(password) && r.value.isActive && !r.value.isStaff
      ensures r.Ok? && password.Some? ==> Verify(password.value, r.value.password) && r.value.password != password.value
      ensures r.Err? ==> rows == old(rows) && nextId == old(nextId)
    {
      if email.None? || email.value == "" {
        return Err(ValueError(MissingEmail));
      }
      var normalized := normalize(email.value);
      var d := Draft(Some(username), Some(normalized), Some(dni), MakePassword(password), true, false);
      TakenIsClash(rows, Materialize(d, nextId));
      r := Insert(d);
    }

    /** `create_superuser`: `create_user`, then `is_admin` set on the returned object and a second save. */
    method CreateSuperuser(normalize: string -> string, email: Option<string>, username: string, dni: string,
                           password: Option<string>)
      returns (r: Result<Superuser, Error>)
      requires Valid()
      modifies this
      ensures Valid()
      ensures email.None? || email.value == "" ==> r == Err(ValueError(MissingEmail))
      ensures r.Ok? <==> email.Some? && email.value != ""
                         && !EmailTaken(old(rows), normalize(email.value)) && !DniTaken(old(rows), dni)
      ensures r.Ok? ==> r.value.isAdmin && r.value.record.isActive && !r.value.record.isStaff
      ensures r.Ok? ==> r.value.record.id !in old(rows) && rows == old(rows)[r.value.record.id := r.value.record]
      ensures email.Some? && email.value != "" && r.Err? ==> r == Err(IntegrityError)
      ensures r.Ok? ==> r.value.record.email == normalize(email.value) && r.value.record.username == username
                        && r.value.record.dni == dni
      ensures r.Ok? ==> r.value.record.password == MakePassword(password)
      ensures r.Ok? && password.Some? ==> r.value.record.password == Hash(password.value)
                                          && Verify(password.value, r.value.record.password)
      ensures r.Ok? && password.None? ==> forall p :: !Verify(p, r.value.record.password)
      ensures r.Err? ==> rows == old(rows) && nextId == old(nextId)
    {
      var created := CreateUser(normalize, email, username, dni, password);
      if created.Err? {
        return Err(created.error);
      }
      var user := created.value;
      StoredRowDoesNotClash(rows, nextId, user);
      var saved := Save(user);
      assert saved.Ok?;
      r := Ok(Superuser(saved.value, true));
    }
  }

  /** Looking a stored user up by what it prints as finds that very user: `__str__` is the login field, `USERNAME_FIELD`. */
  lemma StrLooksUpRow(objects: UsuarioManager, u: Usuario)
    requires objects.Valid()
    requires Stored(objects.rows, u)
    ensures objects.GetByEmail(Str(u)) == Some(u)
  {
    RowsIdentifiedByEmailAndDni(objects.rows, objects.nextId, objects.GetByEmail(Str(u)).value, u);
  }
}
