/**
 * The rows of Lendix's SQLite tables and the database that holds them.
 * The `catalogo` table of the routes and the `implementos` table of the
 * helpers are one item table here. Timestamps are integers (seconds): the
 * textual order of "YYYY-MM-DD HH:MM:SS" is their chronological order.
 */
module Tables {
  import opened Wrappers

  /** A row of `usuarios`. `activo` is 0 for a registration awaiting approval. */
  datatype User = User(
    id: int, nombre: string, email: string, telefono: string, password: string,
    rol: string, activo: int, tipoUsuario: Option<string>)

  /** A row of `catalogo`/`implementos`; `estado` is the condition grade. */
  datatype Item = Item(
    implemento: string, descripcion: string, disponibilidad: int, categoria: string,
    imagenUrl: Option<string>, estado: Option<string>)

  /**
   * A row of `prestamos`. A loan counts as returned once `fechaDevolucion`
   * is set; `estado` is the approval state.
   */
  datatype Loan = Loan(
    usuario: int, item: int, fechaPrestamo: int, tipoPrestamo: string, estado: string,
    autorizador: Option<int>, motivoRechazo: Option<string>,
    fechaDevolucion: Option<int>, novedad: Option<string>,
    estadoDevolucion: Option<string>, observaciones: Option<string>)

  /** A row of `reservas`: a claim on an item for the window [inicio, fin]. */
  datatype Reservation = Reservation(
    usuario: int, item: int, estado: string, inicio: int, fin: int,
    autorizador: Option<int>, motivoRechazo: Option<string>)

  /** A row of `notificaciones` addressed to an instructor about a loan or reservation. */
  datatype Notification = Notification(instructor: int, tipo: string, referencia: int, leida: bool)

  /** A row of `asignaciones_aprendices`. */
  datatype Assignment = Assignment(id: int, instructor: int, aprendiz: int, ambiente: string, activo: int)

  /** A row of `permisos_ambientes`. */
  datatype EnvPermission = EnvPermission(id: int, instructor: int, ambiente: string, habilitado: bool)

  /** Every table and counter of a `Database` at one moment, as a value. */
  datatype Snapshot = Snapshot(
    usuarios: seq<User>, catalogo: map<int, Item>, prestamos: map<int, Loan>,
    reservas: map<int, Reservation>, notificaciones: map<int, Notification>,
    asignaciones: seq<Assignment>, permisos: seq<EnvPermission>,
    lastUsuario: int, lastCatalogo: int, lastPrestamo: int, lastReserva: int,
    lastNotificacion: int, lastAsignacion: int, lastPermiso: int)

  /**
   * The database. Keyed tables are maps from row id; the tables that the
   * source searches with `fetchone` are sequences in row order. Each
   * AUTOINCREMENT table has its counter (SQLite's `sqlite_sequence`): the
   * largest id it has handed out, so a table scan visits ids 1 .. counter.
   */
  class Database {
    var usuarios: seq<User>
    var catalogo: map<int, Item>
    var prestamos: map<int, Loan>
    var reservas: map<int, Reservation>
    var notificaciones: map<int, Notification>
    var asignaciones: seq<Assignment>
    var permisos: seq<EnvPermission>
    var lastUsuario: int
    var lastCatalogo: int
    var lastPrestamo: int
    var lastReserva: int
    var lastNotificacion: int
    var lastAsignacion: int
    var lastPermiso: int

    /** The whole database as a value, so a handler can state its entire new state. */
    function State(): Snapshot
      reads this
    {
      Snapshot(usuarios, catalogo, prestamos, reservas, notificaciones, asignaciones, permisos,
        lastUsuario, lastCatalogo, lastPrestamo, lastReserva, lastNotificacion,
        lastAsignacion, lastPermiso)
    }

    /** Every id lies between 1 and its table's counter; sequence tables have distinct ids. */
    ghost predicate Valid()
      reads this
    {
      && KeysWithin(catalogo.Keys, lastCatalogo)
      && KeysWithin(prestamos.Keys, lastPrestamo)
      && KeysWithin(reservas.Keys, lastReserva)
      && KeysWithin(notificaciones.Keys, lastNotificacion)
      && UserIds(usuarios, lastUsuario)
      && AssignmentIds(asignaciones, lastAsignacion)
      && PermissionIds(permisos, lastPermiso)
    }

    constructor ()
      ensures Valid()
      ensures usuarios == [] && asignaciones == [] && permisos == []
      ensures catalogo == map[] && prestamos == map[] && reservas == map[] && notificaciones == map[]
    {
      usuarios, asignaciones, permisos := [], [], [];
      catalogo, prestamos, reservas, notificaciones := map[], map[], map[], map[];
      lastUsuario, lastCatalogo, lastPrestamo, lastReserva := 0, 0, 0, 0;
      lastNotificacion, lastAsignacion, lastPermiso := 0, 0, 0;
    }
  }

  ghost predicate KeysWithin(keys: set<int>, last: int) {
    0 <= last && forall k :: k in keys ==> 1 <= k <= last
  }

  /** `SELECT ... FROM usuarios WHERE id = ?` with `fetchone`: the first row with that id. */
  function FindUser(users: seq<User>, id: int): (r: Option<User>)
    ensures r.Some? ==> r.value in users && r.value.id == id
    ensures r.None? <==> forall u :: u in users ==> u.id != id
    ensures r.Some? && DistinctUserIds(users) ==> forall u :: u in users && u.id == id ==> u == r.value
  {
    if |users| == 0 then None
    else if users[0].id == id then Some(users[0])
    else FindUser(users[1..], id)
  }

  /** The counter is never negative; user ids are distinct and within 1 .. last. */
  ghost predicate UserIds(users: seq<User>, last: int) {
    && 0 <= last
    && (forall i :: 0 <= i < |users| ==> 1 <= users[i].id <= last)
    && DistinctUserIds(users)
  }

  ghost predicate DistinctUserIds(users: seq<User>) {
    forall i, j :: 0 <= i < j < |users| ==> users[i].id != users[j].id
  }

  ghost predicate AssignmentIds(rows: seq<Assignment>, last: int) {
    && 0 <= last
    && (forall i :: 0 <= i < |rows| ==> 1 <= rows[i].id <= last)
    && (forall i, j :: 0 <= i < j < |rows| ==> rows[i].id != rows[j].id)
  }

  ghost predicate PermissionIds(rows: seq<EnvPermission>, last: int) {
    && 0 <= last
    && (forall i :: 0 <= i < |rows| ==> 1 <= rows[i].id <= last)
    && (forall i, j :: 0 <= i < j < |rows| ==> rows[i].id != rows[j].id)
  }

  /** An AUTOINCREMENT insert: the row with the next id keeps the ids distinct. */
  lemma AppendUser(users: seq<User>, last: int, u: User)
    requires UserIds(users, last) && u.id == last + 1
    ensures UserIds(users + [u], last + 1)
  {
  }

  lemma AppendAssignment(rows: seq<Assignment>, last: int, a: Assignment)
    requires AssignmentIds(rows, last) && a.id == last + 1
    ensures AssignmentIds(rows + [a], last + 1)
  {
  }

  lemma AppendPermission(rows: seq<EnvPermission>, last: int, p: EnvPermission)
    requires PermissionIds(rows, last) && p.id == last + 1
    ensures PermissionIds(rows + [p], last + 1)
  {
  }
}
