# User registration and login, modelled in Dafny

This project models the `usuario` app of a small identity service, a Django user
table with registration and login rules on top. Four parts are modelled:

- the `Usuario` record, with unique `email` and `dni`;
- the manager's `create_user` and `create_superuser`;
- the repository's CRUD over the table;
- the service's login (`autenticar_usuario`) and registration (`crear_usuario`), plus the serializer's field allow-list.

The table is a class, `Models.UsuarioManager`, that stands for `Usuario.objects`.
It holds a `map<int, Usuario>` of rows and the auto-increment counter `nextId`.
Its invariant, `WellFormed`, says three things:

- every row is stored under its own id;
- every id is below the counter;
- no two rows share an email or a dni.

Operations that change the table are methods with `modifies`. Each one is proved
against a function of the old rows (`Repositories.Actualizacion`,
`Repositories.Eliminacion`) or against a postcondition that gives the new rows
outright. Read-only operations (`listar`, `obtener_por_id`, `autenticar_usuario`)
are functions that read the table.

Password hashing is a library call, so it is modelled by `Hashers`:

- `Hash(p)` tags `p` with the PBKDF2 algorithm name;
- `Verify(p, e)` holds exactly when `e == Hash(p)`.

The source depends on two facts about hashing: `Verify(p, Hash(p))`, and that no
other password verifies against `Hash(p)`. Both are proved from this encoding;
neither is assumed. Token signing is modelled by `Tokens.ForUser`. It returns
an access token and a refresh token, and each records its type and the user id.

Modules: `Wrappers`, `Hashers`, `Tokens`, `Models` (models.py), `Repositories`
(repositories.py), `Services` (services.py), `Serializers` (serializers.py).
`Scenarios` holds three client methods:

- `RegisterThenLogin` registers a user, checks the response fields, then tries a wrong password and the right one;
- `PasswordUpdateLocksOut` is the finding below;
- `SafePasswordUpdateLogsIn` is its correction.

In several places the intended design of the service differs from the code. The model follows the code:

- A uniqueness failure from the database is not turned into a domain error. It is the `IntegrityError` variant of `Models.Error`, the exception that `save()` raises. A dni already taken at registration fails this way, because only the email is pre-checked.
- `crear_usuario` reads `username` and `dni` with `datos.get`. A missing key gives `None`, and the NOT NULL columns then refuse the row with an `IntegrityError`.
- `crear_usuario` gives one message for a missing email and for a missing password. It does not name the missing field.
- `actualizar` can change the email, and it stores a new password as plaintext. See "## Findings".

## Model

| member | source | states |
|---|---|---|
| `Hashers.Hash` | usuario/services.py:66 | the stored encoding carries the algorithm tag and is never the plaintext |
| `Hashers.Verify` | usuario/services.py:26 | `check_password` accepts exactly an encoding that carries the algorithm tag followed by the password; anything else is a refusal |
| `Hashers.MakePassword` | usuario/models.py:10 | a given password verifies against its encoding; with no password (`None`), nothing verifies |
| `Hashers.HashInjective` | usuario/tests.py:161-168 | two passwords with the same encoding are equal |
| `Hashers.VerifyRejectsOtherPasswords` | usuario/tests.py:161-168 | a password different from `p` never verifies against `Hash(p)` |
| `Hashers.VerifyRejectsPlaintext` | usuario/services.py:74-79 | a stored value that verifies for `p` is not `p` itself |
| `Tokens.ForUser` | usuario/services.py:12-15 | `for_user` yields an access token and a refresh token, both bound to the user id |
| `Tokens.ForUserIdentifies` | usuario/services.py:12 | token pairs carry their user: pairs issued for different users differ, and a pair's claims name one user |
| `Models.EmailTaken` | usuario/services.py:58 | `filter(email=...).exists()` holds exactly when the email is among the table's emails; in a table whose rows sit under their own ids, exactly when some stored user has that email |
| `Models.DniTaken` | usuario/models.py:24 | a dni is taken exactly when it is among the table's dnis; in a table whose rows sit under their own ids, exactly when some stored user has that dni |
| `Models.StoreKeepsWellFormed` | usuario/models.py:23-24 | storing a row that clashes with no other row, under its own id or the next fresh id, keeps email and dni unique |
| `Models.TakenIsClash` | usuario/models.py:23-24 | for a new row, a taken email or dni is exactly what the unique indexes refuse |
| `Models.RowsIdentifiedByEmailAndDni` | usuario/models.py:23-24 | two stored rows with the same email, or with the same dni, are the same row |
| `Models.StoredRowDoesNotClash` | usuario/models.py:17 | saving a stored row again, unchanged, never violates uniqueness |
| `Models.Split` | usuario/models.py:39 | `str.split` with a one-character separator always returns at least one piece |
| `Models.JoinSplit` | usuario/models.py:39 | joining the pieces of a split with the separator gives back the original string |
| `Models.SplitHead` | usuario/models.py:39 | the first piece of a split is the longest prefix that does not contain the separator |
| `Models.GetFirstName` | usuario/models.py:38-39 | the first name is a prefix of the username with no space in it, and is followed by a space or by the end of the username; an empty username gives `''` |
| `Models.Str` | usuario/models.py:35-36 | `__str__` prints the user as its email, the login field |
| `Models.StrIdentifiesRow` | usuario/models.py:35-36 | within one table, two stored users print alike exactly when they are the same user |
| `Models.StrLooksUpRow` | usuario/models.py:32-36 | looking a stored user up by what it prints as finds that very user |
| `Models.UsuarioManager.constructor` | usuario/models.py:30 | an empty table satisfies the invariant |
| `Models.UsuarioManager.Insert` | usuario/services.py:69 | saving a new instance fails exactly when a NOT NULL column is `None` or the email or dni clashes; on success the row gets a fresh id and nothing else changes; on failure nothing changes, the id counter included |
| `Models.UsuarioManager.Save` | usuario/models.py:17 | saving a stored row fails exactly on a clash; otherwise only that row is replaced |
| `Models.UsuarioManager.Delete` | usuario/repositories.py:45 | the row under the id is removed and the invariant still holds |
| `Models.UsuarioManager.GetByEmail` | usuario/services.py:21-23 | the lookup finds a row exactly when the email is taken, and the row it returns is stored with that email |
| `Models.UsuarioManager.CreateUser` | usuario/models.py:5-12 | refuses a missing or empty email with "El usuario debe tener un email"; fails without adding a row when the normalised email or the dni is taken; on success stores a new row with a fresh id, the normalised email, the password's encoding (never the plaintext), `is_active` true and `is_staff` false |
| `Models.UsuarioManager.CreateSuperuser` | usuario/models.py:14-18 | behaves like `create_user`: the same missing-email message, `IntegrityError` on a clash, a new row with the normalised email, the username and dni given and `make_password`'s encoding of the password, which verifies for a given password and verifies nothing for `None`; the returned object also has `is_admin` set; a failure changes neither the rows nor the id counter |
| `Repositories.Current` | usuario/repositories.py:35 | reading field `f` of a record gives a value for `f` |
| `Repositories.Apply` | usuario/repositories.py:35 | after `setattr`, the named field reads back as set, every other field and the id keep their values, and setting a field to its own value changes nothing |
| `Repositories.ApplyAll` | usuario/repositories.py:34-35 | the `setattr` loop never changes the id |
| `Repositories.ApplyAllSetsNamed` | usuario/repositories.py:34-35 | after the loop, each field named in `datos` holds the value given for it |
| `Repositories.ApplyAllKeepsUnnamed` | usuario/repositories.py:34-35 | after the loop, a field not named in `datos` keeps its value |
| `Repositories.BelowCount` | usuario/repositories.py:8-10 | rows keyed by their own id have as many distinct values as rows |
| `Repositories.Listar` | usuario/repositories.py:8-10 | lists exactly the stored records; the count equals the number of rows |
| `Repositories.ObtenerPorId` | usuario/repositories.py:13-19 | `None` exactly when no row has the id; otherwise a listed record with that id |
| `Repositories.Crear` | usuario/repositories.py:22-25 | stores every given field as it is (username, email, dni, `is_active`, `is_staff`, and the password unhashed); fails with `IntegrityError`, changing neither the rows nor the id counter, exactly when a NOT NULL field is `None` or the email or dni is taken |
| `Repositories.Actualizacion` | usuario/repositories.py:28-38 | unknown id: `None`, nothing changes; a known id fails exactly when the updated record clashes, with `IntegrityError` and nothing changed; otherwise it returns the updated record and only that record is replaced, each field named in `datos` taking its value and the others keeping theirs |
| `Repositories.ActualizacionKeepsWellFormed` | usuario/repositories.py:33-38 | an update keeps email and dni unique, keeps the set of ids and leaves every other record unchanged |
| `Repositories.Actualizar` | usuario/repositories.py:27-38 | the lookup, the `setattr` loop and the save give the result and rows that `Actualizacion` specifies |
| `Repositories.Eliminacion` | usuario/repositories.py:41-48 | the result is true exactly when the id was present; afterwards the id is absent and every other record is unchanged |
| `Repositories.EliminarTwice` | usuario/tests.py:133-136 | a second delete of the same id returns false and changes nothing |
| `Repositories.Eliminar` | usuario/repositories.py:40-48 | returns what `Eliminacion` specifies, and `obtener_por_id` then gives `None` |
| `Services.GenerarTokensParaUsuario` | usuario/services.py:10-16 | the bundle has a distinct access token and refresh token, both for the user's id |
| `Services.AutenticarUsuario` | usuario/services.py:18-37 | succeeds exactly when a stored user has the email and the password verifies; every failure is `ValueError("Credenciales inválidas.")`; on success `user_id`, the tokens and `username` are those of the one user with that email |
| `Services.FailuresIndistinguishable` | usuario/services.py:20-27 | an unknown email and a wrong password give identical failures |
| `Services.LoginWithOwnPassword` | usuario/tests.py:151-159 | a user whose stored password is `Hash(p)` logs in with `p`, and `user_id` is that user's id |
| `Services.LoginWithOtherPasswordFails` | usuario/services.py:26-27 | any other password fails with the invalid-credentials message |
| `Services.LoginWithPlaintextFails` | usuario/services.py:26-27 | a password stored as plaintext never logs its user in |
| `Services.ObtenerUsuario` | usuario/services.py:41-44 | delegates to `obtener_por_id`, arguments unchanged |
| `Services.ListarUsuarios` | usuario/services.py:46-48 | delegates to `listar` |
| `Services.CrearUsuario` | usuario/services.py:50-70 | missing `email` or `password` key: "Email y contraseña son obligatorios"; email taken (exact match, not normalised): "El email ya está registrado."; past those checks, any failure (a missing `username` or `dni` key, a taken dni) is the save's `IntegrityError`; every failure leaves the rows and the id counter unchanged; succeeds exactly when `username` and `dni` are also present and the dni is free; on success one new row with a fresh id, fields copied from the input, password `Hash(datos['password'])`, which verifies |
| `Services.ActualizarUsuario` | usuario/services.py:72-81 | forwards `datos` to `actualizar` unchanged, a password included |
| `Services.ActualizarUsuarioStoresPlaintext` | usuario/services.py:73-81 | after an update that names a password, the row holds it in plaintext, and it does not verify |
| `Services.HashPasswords` | usuario/services.py:74-79 | every password item is replaced by the encoding of its password, every other item is unchanged, and the fields named stay the same |
| `Services.ActualizarUsuarioSeguro` | usuario/services.py:74-79 | the update is `actualizar` applied to `datos` with its passwords hashed |
| `Services.ActualizarUsuarioSeguroVerifies` | usuario/services.py:74-79 | after the hashing update, the new password verifies against the stored row |
| `Services.EliminarUsuario` | usuario/services.py:83-85 | delegates to `eliminar` |
| `Serializers.ToRepresentation` | usuario/serializers.py:13-20 | the output has exactly the keys `id`, `username`, `email` and `dni`, with the row's values; `password` is never in it |
| `Serializers.TrimStart` | usuario/serializers.py:7-11 | `lstrip` leaves a suffix of the text, removes only whitespace, and stops at the first character that is not whitespace |
| `Serializers.TrimEnd` | usuario/serializers.py:7-11 | `rstrip` leaves a prefix of the text, removes only whitespace, and stops at the last character that is not whitespace |
| `Serializers.Strip` | usuario/serializers.py:7-11 | `strip` gives the empty string exactly for a blank text, and otherwise text that neither starts nor ends with whitespace |
| `Serializers.TrimStartPadding` | usuario/serializers.py:7-11 | `lstrip` removes exactly the leading whitespace in front of the text |
| `Serializers.TrimEndPadding` | usuario/serializers.py:7-11 | `rstrip` removes exactly the trailing whitespace after the text |
| `Serializers.LeadingPadding` | usuario/serializers.py:7-11 | what `lstrip` removes is all whitespace, and it sits in front of what `lstrip` keeps |
| `Serializers.TrailingPadding` | usuario/serializers.py:7-11 | what `rstrip` removes is all whitespace, and it sits after what `rstrip` keeps |
| `Serializers.TrimsRemovePadding` | usuario/serializers.py:7-11 | what `lstrip` then `rstrip` remove is whitespace before and after the text they keep |
| `Serializers.StripPadding` | usuario/serializers.py:7-11 | `strip` gives back exactly the text between any whitespace padding |
| `Serializers.StripIdempotent` | usuario/serializers.py:7-11 | stripping twice is stripping once |
| `Serializers.Digits` | usuario/serializers.py:7-11 | the decimal digits of a number are a non-empty run of `0`-`9` that starts with `0` only for zero |
| `Serializers.DigitsValue` | usuario/serializers.py:7-11 | the digits read back as a number give the number: `int(str(n)) == n` for `n >= 0` |
| `Serializers.IntToString` | usuario/serializers.py:7-11 | a number sent for a text field becomes `str(n)`: a minus sign exactly for a negative number, then digits with no leading zero; never blank |
| `Serializers.IntToStringValue` | usuario/serializers.py:7-11 | the text of any integer reads back as that integer |
| `Serializers.CheckField` | usuario/serializers.py:7-11 | a required text field is `required` exactly when absent, `blank` exactly when its text is all whitespace, refused for a NUL character exactly when it is not blank and holds one, and otherwise accepted |
| `Serializers.NullSurvivesStrip` | usuario/serializers.py:7-11 | stripping keeps every NUL character, so checking the stripped text finds exactly the NUL characters of the input |
| `Serializers.CleanField` | usuario/serializers.py:7-11 | a field's validated value is what is left of its text between whitespace padding at either end, and is itself unpadded |
| `Serializers.Validate` | usuario/serializers.py:7-17 | input is accepted exactly when `username`, `email`, `dni` and `password` are all present, not blank and free of NUL characters; a refusal reports each field's error; accepted input gives the four writable fields as stripped, non-empty text and never the read-only `id` |
| `Serializers.RepresentationLacksPassword` | usuario/serializers.py:7-11 | the output of a user never validates as input: the password is reported as required |
| `Serializers.RepresentationMissesOnlyPassword` | usuario/serializers.py:7-20 | when the user's fields are neither blank nor hold a NUL character, the missing password is the only error |
| `Serializers.RepresentationRoundTrip` | usuario/serializers.py:7-20 | a user's output plus a password validates back to the user's own fields, when none of them is padded, blank or holds a NUL character |
| `Serializers.ValidateDropsId` | usuario/serializers.py:17 | an `id` in the input, of any value, changes nothing in the outcome |

## Left out

- HTTP handling (`usuario/views.py`): status codes, the 405 for other methods, and turning exceptions into responses. The admin registration (`usuario/admin.py`) has no live code.
- Hashers.Hash: does not model salting, iteration counts, one-wayness or rehash-on-check. The model uses an injective encoding, which is the property the login rules depend on.
- Models.UsuarioManager.CreateSuperuser: takes `username` and `dni` as strings, not `None`, as `CreateUser` does. The password may be `None`. A `None` column is modelled by `Insert` and `Repositories.Crear`.
- `normalize_email` is library code. `CreateUser` and `CreateSuperuser` take it as the parameter `normalize`.
- Tokens.ForUser: does not model signing, expiry, the token id or the string encoding. A token records only its type and user id.
- Tokens.ForUserIdentifies: its "same user, same pair" direction holds only because the token id and expiry are left out. The real `for_user` issues fresh tokens on every call; only the claims identify the user.
- Transactions, concurrent registrations, and how the database enforces the unique indexes atomically. The model runs one operation at a time.
- Auto-increment is modelled as the counter `nextId`. A failed insert does not use up an id here, while some databases do consume a sequence value on a failed insert.
- Repositories.Actualizar: `datos` may only name the six columns `username`, `email`, `dni`, `password`, `is_active` and `is_staff`, each with a value of that column's type. Other keys are not modelled: `id`, `last_login`, `is_superuser`, or arbitrary attribute names. Neither is the coercion of a mistyped value at save.
- Repositories.Crear: takes the keyword arguments with the model's defaults already filled in. Unknown keywords (a `TypeError`) are not modelled.
- Services.CrearUsuario: the request values are strings. JSON `null`, numbers and other types are not modelled.
- Models.GetFirstName: a stored username is never `None`, because the column is NOT NULL. The `None` case of the source is therefore only the empty-string case here.
- Models.UsuarioManager.CreateUser: takes `username` and `dni` as strings, not `None`.
- Column lengths (`max_length`) and the email format are not checked. Django's `save()` does not validate them; depending on the database, an over-long value may still be refused.
- The fields and permissions that come from `PermissionsMixin` and `AbstractBaseUser` are not modelled: `is_superuser`, groups, `last_login`.
- Serializers.Validate: does not model the email format check, `max_length`, the unique validators DRF derives for email and dni, or the check for surrogate characters. The check for NUL characters is modelled. JSON values are strings and integers only: `null`, booleans and lists (refused by DRF) and floats (turned into text) are not modelled.
- Repositories.Listar: returns a set, because a `QuerySet` without ordering has no defined order.

## Findings

| source | as written | input that shows it | evidently intended | confidence | as-written member | corrected member |
|---|---|---|---|---|---|---|
| usuario/services.py:73-81 | the `password` branch is a no-op, so `actualizar` stores the new password as plaintext | `actualizar_usuario(id, {'password': 'nueva'})`, then `autenticar_usuario(email, 'nueva')` fails | hash the new password before it is stored, as the comment at line 74 says | high; not executed | `Services.ActualizarUsuarioStoresPlaintext` | `Services.ActualizarUsuarioSeguroVerifies` |
