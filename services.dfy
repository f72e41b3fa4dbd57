/**
 * The service (`usuario/services.py`): login with token issue, registration
 * with its checks in order, and the CRUD calls it forwards to the repository.
 */
module Services {
  import opened Wrappers
  import opened Hashers
  import opened Tokens
  import opened Models
  import opened Repositories

  const InvalidCredentials: string := "Credenciales inválidas."
  const MissingFields: string := "Email y contraseña son obligatorios"
  const DuplicateEmail: string := "El email ya está registrado."

  /** The dict a successful login returns. */
  datatype AuthBundle = AuthBundle(userId: int, access: Token, refresh: Token, username: string)

  /** `generar_tokens_para_usuario`: an access and a refresh token, both bound to the user's id. */
  function GenerarTokensParaUsuario(user: Usuario): (tokens: TokenPair)
    ensures tokens.access.tokenType == Access && tokens.refresh.tokenType == Refresh
    ensures tokens.access.userId == user.id && tokens.refresh.userId == user.id
    ensures tokens.access != tokens.refresh
  {
    ForUser(user.id)
  }

  /**
   * `autenticar_usuario`: the login rule. An unknown email and a password that
   * does not verify fail alike; otherwise the tokens of the one user with that
   * email, and that user's first name.
   */
  function AutenticarUsuario(objects: UsuarioManager, email: string, password: string)
    : (r: Result<AuthBundle, Error>)
    reads objects
    requires objects.Valid()
    ensures r.Err? ==> r.error == ValueError(InvalidCredentials)
    ensures r.Ok? <==> exists u :: Stored(objects.rows, u) && u.email == email && Verify(password, u.password)
    ensures r.Ok? ==> forall u :: Stored(objects.rows, u) && u.email == email ==>
                        && r.value.userId == u.id
                        && r.value.access == GenerarTokensParaUsuario(u).access
                        && r.value.refresh == GenerarTokensParaUsuario(u).refresh
                        && r.value.username == GetFirstName(u)
  {
    match objects.GetByEmail(email)
    case None => Err(ValueError(InvalidCredentials))
    case Some(user) =>
      if !Verify(password, user.password) then Err(ValueError(InvalidCredentials))
      else
        var tokens := GenerarTokensParaUsuario(user);
        assert forall u :: Stored(objects.rows, u) && u.email == email ==> u == user by {
          forall u | Stored(objects.rows, u) && u.email == email
            ensures u == user
          {
            RowsIdentifiedByEmailAndDni(objects.rows, objects.nextId, u, user);
          }
        }
        Ok(AuthBundle(user.id, tokens.access, tokens.refresh, GetFirstName(user)))
  }

  /** An unknown email and a wrong password for a known one give the very same failure. */
  lemma FailuresIndistinguishable(objects: UsuarioManager, unknown: string, anyPassword: string,
                                  user: Usuario, wrongPassword: string)
    requires objects.Valid()
    requires !EmailTaken(objects.rows, unknown)
    requires Stored(objects.rows, user) && !Verify(wrongPassword, user.password)
    ensures AutenticarUsuario(objects, unknown, anyPassword) == AutenticarUsuario(objects, user.email, wrongPassword)
    ensures AutenticarUsuario(objects, unknown, anyPassword) == Err(ValueError(InvalidCredentials))
  {
  }

  /** A stored user whose password was hashed from `p` logs in with `p`. */
  lemma LoginWithOwnPassword(objects: UsuarioManager, user: Usuario, p: string)
    requires objects.Valid()
    requires Stored(objects.rows, user) && user.password == Hash(p)
    ensures AutenticarUsuario(objects, user.email, p).Ok?
    ensures AutenticarUsuario(objects, user.email, p).value.userId == user.id
  {
    assert Verify(p, user.password);
  }

  /** Any other password than the one hashed is refused. */
  lemma LoginWithOtherPasswordFails(objects: UsuarioManager, user: Usuario, p: string, q: string)
    requires objects.Valid()
    requires Stored(objects.rows, user) && user.password == Hash(p) && q != p
    ensures AutenticarUsuario(objects, user.email, q) == Err(ValueError(InvalidCredentials))
  {
    VerifyRejectsOtherPasswords(p, q);
  }

  /** A password stored as plaintext locks its user out: login with it fails. */
  lemma LoginWithPlaintextFails(objects: UsuarioManager, user: Usuario)
    requires objects.Valid()
    requires Stored(objects.rows, user)
    ensures AutenticarUsuario(objects, user.email, user.password) == Err(ValueError(InvalidCredentials))
  {
    VerifyRejectsPlaintext(user.password, user.password);
  }

  /** `obtener_usuario`: the repository's lookup, arguments unchanged. */
  function ObtenerUsuario(objects: UsuarioManager, id: int): (r: Option<Usuario>)
    reads objects
    requires objects.Valid()
    ensures r == ObtenerPorId(objects, id)
  {
    ObtenerPorId(objects, id)
  }

  /** `listar_usuarios`: the repository's listing. */
  function ListarUsuarios(objects: UsuarioManager): (r: set<Usuario>)
    reads objects
    requires objects.Valid()
    ensures r == Listar(objects)
  {
    Listar(objects)
  }

  /** `datos.get(key)`. */
  function DictGet(datos: map<string, string>, key: string): (r: Option<string>)
  {
    if key in datos then Some(datos[key]) else None
  }

  /**
   * `crear_usuario`: the keys `email` and `password` must be present, the
   * email must be free (exactly as given, not normalised), then the row is
   * built with the hash of the password and saved. A missing `username` or
   * `dni` key gives `None`, and the save then fails, as does a taken dni: the
   * database's `IntegrityError` passes through.
   */
  method CrearUsuario(objects: UsuarioManager, datos: map<string, string>) returns (r: Result<Usuario, Error>)
    requires objects.Valid()
    modifies objects
    ensures objects.Valid()
    ensures "email" !in datos || "password" !in datos ==> r == Err(ValueError(MissingFields))
    ensures "email" in datos && "password" in datos && EmailTaken(old(objects.rows), datos["email"]) ==>
              r == Err(ValueError(DuplicateEmail))
    ensures "email" in datos && "password" in datos && !EmailTaken(old(objects.rows), datos["email"]) && r.Err? ==>
              r == Err(IntegrityError)
    ensures r.Err? ==> objects.rows == old(objects.rows) && objects.nextId == old(objects.nextId)
    ensures r.Ok? <==> && "email" in datos && "password" in datos && "username" in datos && "dni" in datos
                       && !EmailTaken(old(objects.rows), datos["email"]) && !DniTaken(old(objects.rows), datos["dni"])
    ensures r.Ok? ==> r.value.id !in old(objects.rows) && objects.rows == old(objects.rows)[r.value.id := r.value]
    ensures r.Ok? ==> && r.value.email == datos["email"] && r.value.username == datos["username"]
                      && r.value.dni == datos["dni"] && r.value.isActive && !r.value.isStaff
    ensures r.Ok? ==> r.value.password == Hash(datos["password"]) && Verify(datos["password"], r.value.password)
  {
    if "email" !in datos || "password" !in datos {
      return Err(ValueError(MissingFields));
    }
    if EmailTaken(objects.rows, datos["email"]) {
      return Err(ValueError(DuplicateEmail));
    }
    var usuario := Draft(DictGet(datos, "username"), Some(datos["email"]), DictGet(datos, "dni"),
                         Hash(datos["password"]), true, false);
    if Complete(usuario) {
      TakenIsClash(objects.rows, Materialize(usuario, objects.nextId));
    }
    r := objects.Insert(usuario);
  }

  /**
   * `actualizar_usuario`: the check for a `password` key does nothing, so the
   * update goes to the repository as given, a plaintext password included.
   */
  method ActualizarUsuario(objects: UsuarioManager, id: int, datos: seq<Assignment>)
    returns (r: Result<Option<Usuario>, Error>)
    requires objects.Valid()
    modifies objects
    ensures objects.Valid()
    ensures (r, objects.rows) == Actualizacion(old(objects.rows), id, datos)
  {
    r := Actualizar(objects, id, datos);
  }

  /** After `actualizar_usuario` with a password item, the row holds that password in plaintext, which does not verify. */
  lemma ActualizarUsuarioStoresPlaintext(rows: map<int, Usuario>, id: int, datos: seq<Assignment>, i: int)
    requires DistinctFields(datos) && 0 <= i < |datos| && datos[i].SetPassword?
    requires Actualizacion(rows, id, datos).0.Ok? && Actualizacion(rows, id, datos).0.value.Some?
    ensures var u := Actualizacion(rows, id, datos).0.value.value;
            u.password == datos[i].password && !Verify(datos[i].password, u.password)
  {
    var u := Actualizacion(rows, id, datos).0.value.value;
    assert Current(u, FieldOf(datos[i])) == datos[i];
    VerifyRejectsPlaintext(datos[i].password, u.password);
  }

  /** Every password item replaced by the encoding of its password. */
  function HashPasswords(datos: seq<Assignment>): (hashed: seq<Assignment>)
    ensures |hashed| == |datos|
    ensures forall i :: 0 <= i < |datos| ==> FieldOf(hashed[i]) == FieldOf(datos[i])
    ensures forall i :: 0 <= i < |datos| && datos[i].SetPassword? ==> hashed[i] == SetPassword(Hash(datos[i].password))
    ensures forall i :: 0 <= i < |datos| && !datos[i].SetPassword? ==> hashed[i] == datos[i]
  {
    seq(|datos|, i requires 0 <= i < |datos| =>
      if datos[i].SetPassword? then SetPassword(Hash(datos[i].password)) else datos[i])
  }

  /** `actualizar_usuario` as its own comment intends it: a new password is hashed before it is stored. */
  method ActualizarUsuarioSeguro(objects: UsuarioManager, id: int, datos: seq<Assignment>)
    returns (r: Result<Option<Usuario>, Error>)
    requires objects.Valid()
    modifies objects
    ensures objects.Valid()
    ensures (r, objects.rows) == Actualizacion(old(objects.rows), id, HashPasswords(datos))
  {
    r := Actualizar(objects, id, HashPasswords(datos));
  }

  /** After the hashing update, the new password verifies against the stored row. */
  lemma ActualizarUsuarioSeguroVerifies(rows: map<int, Usuario>, id: int, datos: seq<Assignment>, i: int)
    requires DistinctFields(datos) && 0 <= i < |datos| && datos[i].SetPassword?
    requires Actualizacion(rows, id, HashPasswords(datos)).0.Ok?
    requires Actualizacion(rows, id, HashPasswords(datos)).0.value.Some?
    ensures var u := Actualizacion(rows, id, HashPasswords(datos)).0.value.value;
            u.password == Hash(datos[i].password) && Verify(datos[i].password, u.password)
  {
    var hashed := HashPasswords(datos);
    assert DistinctFields(hashed);
    var u := Actualizacion(rows, id, hashed).0.value.value;
    assert Current(u, FieldOf(hashed[i])) == hashed[i];
  }

  /** `eliminar_usuario`: the repository's delete. */
  method EliminarUsuario(objects: UsuarioManager, id: int) returns (deleted: bool)
    requires objects.Valid()
    modifies objects
    ensures objects.Valid()
    ensures (deleted, objects.rows) == Eliminacion(old(objects.rows), id)
  {
    deleted := Eliminar(objects, id);
  }
}
