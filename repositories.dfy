/**
 * The repository (`usuario/repositories.py`): CRUD over the user table.
 * Every operation takes the table, `Usuario.objects`, as `objects`.
 */
module Repositories {
  import opened Wrappers
  import opened Models

  /** A column `actualizar` can set by name. */
  datatype Field = Username | Email | Dni | Password | IsActive | IsStaff

  /** One item of `datos`: a column and the value given for it. */
  datatype Assignment =
    | SetUsername(username: string)
    | SetEmail(email: string)
    | SetDni(dni: string)
    | SetPassword(password: string)
    | SetIsActive(isActive: bool)
    | SetIsStaff(isStaff: bool)

  function FieldOf(a: Assignment): Field
  {
    match a
    case SetUsername(_) => Username
    case SetEmail(_) => Email
    case SetDni(_) => Dni
    case SetPassword(_) => Password
    case SetIsActive(_) => IsActive
    case SetIsStaff(_) => IsStaff
  }

  /** The assignment that would leave field `f` of `u` as it is: `u`'s value for `f`. */
  function Current(u: Usuario, f: Field): (a: Assignment)
    ensures FieldOf(a) == f
  {
    match f
    case Username => SetUsername(u.username)
    case Email => SetEmail(u.email)
    case Dni => SetDni(u.dni)
    case Password => SetPassword(u.password)
    case IsActive => SetIsActive(u.isActive)
    case IsStaff => SetIsStaff(u.isStaff)
  }

  /**
   * `setattr(usuario, campo, valor)` for one item: the value is stored as
   * given, a password included; the named field reads back as set, every other
   * field and the id stay, and setting a field to its own value changes nothing.
   */
  function Apply(u: Usuario, a: Assignment): (v: Usuario)
    ensures Current(v, FieldOf(a)) == a
    ensures forall f :: f != FieldOf(a) ==> Current(v, f) == Current(u, f)
    ensures v.id == u.id
    ensures a == Current(u, FieldOf(a)) ==> v == u
  {
    match a
    case SetUsername(x) => u.(username := x)
    case SetEmail(x) => u.(email := x)
    case SetDni(x) => u.(dni := x)
    case SetPassword(x) => u.(password := x)
    case SetIsActive(x) => u.(isActive := x)
    case SetIsStaff(x) => u.(isStaff := x)
  }

  /** The keys of a dict are distinct: no field is named twice in `datos`. */
  predicate DistinctFields(datos: seq<Assignment>)
  {
    forall i, j :: 0 <= i < j < |datos| ==> FieldOf(datos[i]) != FieldOf(datos[j])
  }

  /** The record after the `setattr` loop has run over `datos` in order. */
  function ApplyAll(u: Usuario, datos: seq<Assignment>): (v: Usuario)
    ensures v.id == u.id
    decreases |datos|
  {
    if datos == [] then u
    else Apply(ApplyAll(u, datos[..|datos| - 1]), datos[|datos| - 1])
  }

  /** Every field named in `datos` ends with the value given for it. */
  lemma {:induction false} ApplyAllSetsNamed(u: Usuario, datos: seq<Assignment>, i: int)
    requires DistinctFields(datos)
    requires 0 <= i < |datos|
    ensures Current(ApplyAll(u, datos), FieldOf(datos[i])) == datos[i]
    decreases |datos|
  {
    var n := |datos| - 1;
    var prefix := datos[..n];
    if i < n {
      assert prefix[i] == datos[i];
      ApplyAllSetsNamed(u, prefix, i);
    }
  }

  /** A field that `datos` does not name keeps its value. */
  lemma {:induction false} ApplyAllKeepsUnnamed(u: Usuario, datos: seq<Assignment>, f: Field)
    requires forall i :: 0 <= i < |datos| ==> FieldOf(datos[i]) != f
    ensures Current(ApplyAll(u, datos), f) == Current(u, f)
    decreases |datos|
  {
    if datos != [] {
      var n := |datos| - 1;
      ApplyAllKeepsUnnamed(u, datos[..n], f);
    }
  }

  /** The rows whose id is below `n`. */
  function Below(rows: map<int, Usuario>, n: int): map<int, Usuario>
  {
    map k | k in rows && k < n :: rows[k]
  }

  /** Rows that carry their own positive id are as many as their distinct values, counted up to any bound. */
  lemma {:induction false} BelowCount(rows: map<int, Usuario>, n: int)
    requires forall k :: k in rows ==> rows[k].id == k && 0 < k
    ensures |Below(rows, n).Values| == |Below(rows, n)|
    decreases n
  {
    if n <= 1 {
      assert Below(rows, n) == map[];
    } else {
      BelowCount(rows, n - 1);
      var m := Below(rows, n - 1);
      if n - 1 in rows {
        var u := rows[n - 1];
        var m' := m[n - 1 := u];
        assert Below(rows, n) == m';
        forall v | v in m'.Values
          ensures v in m.Values + {u}
        {
          if v != u {
            var k :| k in m' && m'[k] == v;
            assert k in m && m[k] == v;
          }
        }
        forall v | v in m.Values + {u}
          ensures v in m'.Values
        {
          if v != u {
            var k :| k in m && m[k] == v;
            assert m'[k] == v;
          } else {
            assert m'[n - 1] == u;
          }
        }
        assert m'.Values == m.Values + {u};
      } else {
        assert Below(rows, n) == m;
      }
    }
  }

  /** `listar`: every stored record, one per row. */
  function Listar(objects: UsuarioManager): (all: set<Usuario>)
    reads objects
    requires objects.Valid()
    ensures forall u :: u in all <==> Stored(objects.rows, u)
    ensures |all| == |objects.rows|
  {
    BelowCount(objects.rows, objects.nextId);
    assert Below(objects.rows, objects.nextId) == objects.rows;
    objects.rows.Values
  }

  /** `obtener_por_id`: the record stored under `id`, or `None` when there is none. */
  function ObtenerPorId(objects: UsuarioManager, id: int): (r: Option<Usuario>)
    reads objects
    requires objects.Valid()
    ensures r.Some? <==> id in objects.rows
    ensures r.Some? ==> r.value.id == id && r.value in Listar(objects)
  {
    if id in objects.rows then Some(objects.rows[id]) else None
  }

  /**
   * `crear`: `Usuario.objects.create(**datos)`, the keyword arguments already
   * completed with the model's defaults. The fields are stored as given, the
   * password without hashing.
   */
  method Crear(objects: UsuarioManager, datos: Draft) returns (r: Result<Usuario, Error>)
    requires objects.Valid()
    modifies objects
    ensures objects.Valid()
    ensures r.Ok? <==> Complete(datos) && !Clash(old(objects.rows), Materialize(datos, old(objects.nextId)))
    ensures r.Ok? ==> r.value.id !in old(objects.rows) && objects.rows == old(objects.rows)[r.value.id := r.value]
    ensures r.Ok? ==> r.value.password == datos.password && Some(r.value.email) == datos.email
                      && Some(r.value.dni) == datos.dni && Some(r.value.username) == datos.username
                      && r.value.isActive == datos.isActive && r.value.isStaff == datos.isStaff
    ensures r.Err? ==> r.error == IntegrityError && objects.rows == old(objects.rows)
                       && objects.nextId == old(objects.nextId)
  {
    r := objects.Insert(datos);
  }

  /**
   * What `actualizar(id, datos)` returns and the rows it leaves: `None` and no
   * change for an unknown id; otherwise the record with `datos` applied, saved,
   * unless a unique index refuses it.
   */
  function Actualizacion(rows: map<int, Usuario>, id: int, datos: seq<Assignment>)
    : (out: (Result<Option<Usuario>, Error>, map<int, Usuario>))
    ensures id !in rows ==> out == (Ok(None), rows)
    ensures id in rows ==> (out.0.Err? <==> Clash(rows, ApplyAll(rows[id], datos)))
    ensures id in rows && out.0.Ok? ==> out.0.value.Some?
    ensures out.0.Err? ==> out.0.error == IntegrityError && out.1 == rows
    ensures out.0.Ok? && out.0.value.Some? ==>
              var u := out.0.value.value;
              && id in rows && u.id == rows[id].id && out.1 == rows[id := u]
              && (forall f :: (forall i :: 0 <= i < |datos| ==> FieldOf(datos[i]) != f) ==>
                    Current(u, f) == Current(rows[id], f))
              && (DistinctFields(datos) ==> forall i :: 0 <= i < |datos| ==> Current(u, FieldOf(datos[i])) == datos[i])
  {
    if id !in rows then (Ok(None), rows)
    else
      var u := ApplyAll(rows[id], datos);
      if Clash(rows, u) then (Err(IntegrityError), rows)
      else
        NamedAndUnnamed(rows[id], datos);
        (Ok(Some(u)), rows[id := u])
  }

  /** Both `ApplyAll` lemmas at once, for every field. */
  lemma NamedAndUnnamed(u: Usuario, datos: seq<Assignment>)
    ensures forall f :: (forall i :: 0 <= i < |datos| ==> FieldOf(datos[i]) != f) ==>
              Current(ApplyAll(u, datos), f) == Current(u, f)
    ensures DistinctFields(datos) ==>
              forall i :: 0 <= i < |datos| ==> Current(ApplyAll(u, datos), FieldOf(datos[i])) == datos[i]
  {
    forall f | forall i :: 0 <= i < |datos| ==> FieldOf(datos[i]) != f
      ensures Current(ApplyAll(u, datos), f) == Current(u, f)
    {
      ApplyAllKeepsUnnamed(u, datos, f);
    }
    if DistinctFields(datos) {
      forall i | 0 <= i < |datos|
        ensures Current(ApplyAll(u, datos), FieldOf(datos[i])) == datos[i]
      {
        ApplyAllSetsNamed(u, datos, i);
      }
    }
  }

  /** `actualizar` keeps the table invariant, and leaves every other record as it was. */
  lemma ActualizacionKeepsWellFormed(rows: map<int, Usuario>, nextId: int, id: int, datos: seq<Assignment>)
    requires WellFormed(rows, nextId)
    ensures WellFormed(Actualizacion(rows, id, datos).1, nextId)
    ensures forall k :: k in rows && k != id ==> k in Actualizacion(rows, id, datos).1
                                                 && Actualizacion(rows, id, datos).1[k] == rows[k]
    ensures Actualizacion(rows, id, datos).1.Keys == rows.Keys
  {
    if id in rows {
      var u := ApplyAll(rows[id], datos);
      if !Clash(rows, u) {
        StoreKeepsWellFormed(rows, nextId, u);
      }
    }
  }

  /** `actualizar`: look the record up, `setattr` each item of `datos`, save. */
  method Actualizar(objects: UsuarioManager, id: int, datos: seq<Assignment>)
    returns (r: Result<Option<Usuario>, Error>)
    requires objects.Valid()
    modifies objects
    ensures objects.Valid() && objects.nextId == old(objects.nextId)
    ensures (r, objects.rows) == Actualizacion(old(objects.rows), id, datos)
  {
    var found := ObtenerPorId(objects, id);
    if found.None? {
      return Ok(None);
    }
    var usuario := found.value;
    var i := 0;
    while i < |datos|
      invariant 0 <= i <= |datos|
      invariant usuario == ApplyAll(found.value, datos[..i])
    {
      assert datos[..i + 1][..i] == datos[..i];
      usuario := Apply(usuario, datos[i]);
      i := i + 1;
    }
    assert datos[..|datos|] == datos;
    var saved := objects.Save(usuario);
    if saved.Err? {
      return Err(saved.error);
    }
    r := Ok(Some(saved.value));
  }

  /** What `eliminar(id)` returns and the rows it leaves: whether a record existed, and the rows without it. */
  function Eliminacion(rows: map<int, Usuario>, id: int): (out: (bool, map<int, Usuario>))
    ensures out.0 <==> id in rows
    ensures id !in out.1 && out.1.Keys == rows.Keys - {id}
    ensures forall k :: k in out.1 ==> out.1[k] == rows[k]
  {
    (id in rows, rows - {id})
  }

  /** A second `eliminar` of the same id finds nothing and changes nothing. */
  lemma EliminarTwice(rows: map<int, Usuario>, id: int)
    ensures var once := Eliminacion(rows, id).1;
            Eliminacion(once, id) == (false, once)
  {
    var once := rows - {id};
    assert once - {id} == once;
  }

  /** `eliminar`: `True` after deleting the record under `id`, `False` when there was none. */
  method Eliminar(objects: UsuarioManager, id: int) returns (deleted: bool)
    requires objects.Valid()
    modifies objects
    ensures objects.Valid() && objects.nextId == old(objects.nextId)
    ensures (deleted, objects.rows) == Eliminacion(old(objects.rows), id)
    ensures ObtenerPorId(objects, id) == None
  {
    if id in objects.rows {
      objects.Delete(id);
      return true;
    }
    assert objects.rows - {id} == objects.rows;
    return false;
  }
}
