/** Clients of the model: runs of the operations that callers can reason about from the contracts alone. */
module Scenarios {
  import opened Wrappers
  import opened Hashers
  import opened Models
  import opened Repositories
  import opened Services
  import opened Serializers

  /** Register, answer with the public fields, refuse a wrong password, accept the right one. */
  method RegisterThenLogin()
  {
    var objects := new UsuarioManager();
    var datos := map["email" := "a@x.com", "username" := "Ana", "dni" := "123", "password" := "secret"];
    var created := CrearUsuario(objects, datos);
    assert created.Ok?;
    var user := created.value;
    var body := ToRepresentation(user);
    assert body["email"] == JStr("a@x.com") && "password" !in body;
    LoginWithOtherPasswordFails(objects, user, "secret", "wrong");
    assert AutenticarUsuario(objects, "a@x.com", "wrong") == Err(ValueError(InvalidCredentials));
    LoginWithOwnPassword(objects, user, "secret");
    assert AutenticarUsuario(objects, "a@x.com", "secret").value.userId == user.id;
    var again := CrearUsuario(objects, datos);
    assert again == Err(ValueError(DuplicateEmail));
  }

  /** A password changed through `actualizar_usuario` is stored in plaintext and no longer logs in. */
  method PasswordUpdateLocksOut()
  {
    var objects := new UsuarioManager();
    var datos := map["email" := "a@x.com", "username" := "Ana", "dni" := "123", "password" := "secret"];
    var created := CrearUsuario(objects, datos);
    assert created.Ok?;
    var user := created.value;
    var updated := ActualizarUsuario(objects, user.id, [SetPassword("nueva")]);
    assert [SetPassword("nueva")][..0] == [];
    assert updated == Ok(Some(user.(password := "nueva")));
    LoginWithPlaintextFails(objects, user.(password := "nueva"));
    assert AutenticarUsuario(objects, "a@x.com", "nueva") == Err(ValueError(InvalidCredentials));
  }

  /** The same change through the hashing update logs in with the new password. */
  method SafePasswordUpdateLogsIn()
  {
    var objects := new UsuarioManager();
    var datos := map["email" := "a@x.com", "username" := "Ana", "dni" := "123", "password" := "secret"];
    var created := CrearUsuario(objects, datos);
    assert created.Ok?;
    var user := created.value;
    var updated := ActualizarUsuarioSeguro(objects, user.id, [SetPassword("nueva")]);
    assert HashPasswords([SetPassword("nueva")]) == [SetPassword(Hash("nueva"))];
    assert [SetPassword(Hash("nueva"))][..0] == [];
    var changed := user.(password := Hash("nueva"));
    assert updated == Ok(Some(changed));
    LoginWithOwnPassword(objects, changed, "nueva");
    assert AutenticarUsuario(objects, "a@x.com", "nueva").Ok?;
  }
}
