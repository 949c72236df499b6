/**
 * utils/permisos.py: who may request a loan in an environment ("ambiente"),
 * and the two update-or-insert writers behind it: an instructor's switch
 * for an environment and an apprentice's assignment to an instructor.
 */
module Permisos {
  import opened Wrappers
  import opened Tables

  // ----- lookups (`fetchone` returns the first row in row order) -----

  predicate ActiveAssignment(a: Assignment, aprendiz: int, ambiente: string) {
    a.aprendiz == aprendiz && a.ambiente == ambiente && a.activo == 1
  }

  /** Row `i` is the first active assignment of the apprentice in the environment. */
  predicate FirstActiveAt(asignaciones: seq<Assignment>, i: int, aprendiz: int, ambiente: string) {
    0 <= i < |asignaciones| && ActiveAssignment(asignaciones[i], aprendiz, ambiente)
    && forall j :: 0 <= j < i ==> !ActiveAssignment(asignaciones[j], aprendiz, ambiente)
  }

  function ActiveIndex(asignaciones: seq<Assignment>, aprendiz: int, ambiente: string): (r: Option<nat>)
    ensures r.Some? ==> FirstActiveAt(asignaciones, r.value, aprendiz, ambiente)
    ensures r.None? <==> forall a :: a in asignaciones ==> !ActiveAssignment(a, aprendiz, ambiente)
  {
    if |asignaciones| == 0 then None
    else if ActiveAssignment(asignaciones[0], aprendiz, ambiente) then Some(0)
    else
      match ActiveIndex(asignaciones[1..], aprendiz, ambiente)
      case None => None
      case Some(i) => Some(i + 1)
  }

  /** `obtener_instructor_del_aprendiz`: the instructor of the first active assignment. */
  function InstructorOf(asignaciones: seq<Assignment>, aprendiz: int, ambiente: string): (r: Option<int>)
    ensures r.None? <==> forall a :: a in asignaciones ==> !ActiveAssignment(a, aprendiz, ambiente)
    ensures r.Some? ==>
      (exists i :: FirstActiveAt(asignaciones, i, aprendiz, ambiente) && asignaciones[i].instructor == r.value)
  {
    match ActiveIndex(asignaciones, aprendiz, ambiente)
    case None => None
    case Some(i) => Some(asignaciones[i].instructor)
  }

  /** Row `p` is the first permission row of the instructor for the environment. */
  predicate FirstPermissionAt(permisos: seq<EnvPermission>, p: int, instructor: int, ambiente: string) {
    0 <= p < |permisos| && permisos[p].instructor == instructor && permisos[p].ambiente == ambiente
    && forall j :: 0 <= j < p ==> !(permisos[j].instructor == instructor && permisos[j].ambiente == ambiente)
  }

  /** The index of the first permission row for this instructor and environment. */
  function PermissionIndex(permisos: seq<EnvPermission>, instructor: int, ambiente: string): (r: Option<nat>)
    ensures r.Some? ==> FirstPermissionAt(permisos, r.value, instructor, ambiente)
    ensures r.None? <==> forall p :: p in permisos ==> !(p.instructor == instructor && p.ambiente == ambiente)
  {
    if |permisos| == 0 then None
    else if permisos[0].instructor == instructor && permisos[0].ambiente == ambiente then Some(0)
    else
      match PermissionIndex(permisos[1..], instructor, ambiente)
      case None => None
      case Some(i) => Some(i + 1)
  }

  /** The index of the first assignment row for this instructor, apprentice and environment. */
  function AssignmentIndex(asignaciones: seq<Assignment>, instructor: int, aprendiz: int, ambiente: string)
    : (r: Option<nat>)
    ensures r.Some? ==>
      && r.value < |asignaciones|
      && SameAssignment(asignaciones[r.value], instructor, aprendiz, ambiente)
      && (forall j :: 0 <= j < r.value ==> !SameAssignment(asignaciones[j], instructor, aprendiz, ambiente))
    ensures r.None? <==> forall a :: a in asignaciones ==> !SameAssignment(a, instructor, aprendiz, ambiente)
  {
    if |asignaciones| == 0 then None
    else if SameAssignment(asignaciones[0], instructor, aprendiz, ambiente) then Some(0)
    else
      match AssignmentIndex(asignaciones[1..], instructor, aprendiz, ambiente)
      case None => None
      case Some(i) => Some(i + 1)
  }

  predicate SameAssignment(a: Assignment, instructor: int, aprendiz: int, ambiente: string) {
    a.instructor == instructor && a.aprendiz == aprendiz && a.ambiente == ambiente
  }

  // ----- verificar_permiso_prestamo -----

  datatype Verdict = Verdict(granted: bool, message: string)

  /** Python's `not instructor_id`: no assignment, or instructor id 0. */
  function NoInstructor(instructor: Option<int>): (b: bool)
    ensures b <==> instructor.GetOr(0) == 0
  {
    instructor.None? || instructor == Some(0)
  }

  /**
   * The decision chain: unknown user, admin email, instructor, apprentice
   * (assignment, then the instructor's row, then its switch), anything else.
   */
  function CheckLoanPermission(
    users: seq<User>, asignaciones: seq<Assignment>, permisos: seq<EnvPermission>,
    usuario: int, ambiente: string): (v: Verdict)
    ensures FindUser(users, usuario).None? ==> v == Verdict(false, "Usuario no encontrado")
    ensures FindUser(users, usuario).Some? && FindUser(users, usuario).value.email == "Eduard@gmail.com" ==>
      v == Verdict(true, "Permiso concedido (Admin)")
    ensures v.granted ==> FindUser(users, usuario).Some?
  {
    match FindUser(users, usuario)
    case None => Verdict(false, "Usuario no encontrado")
    case Some(u) =>
      if u.email == "Eduard@gmail.com" then Verdict(true, "Permiso concedido (Admin)")
      else if u.tipoUsuario == Some("instructor") then Verdict(true, "Permiso concedido (Instructor)")
      else if u.tipoUsuario == Some("aprendiz") then
        var instructor := InstructorOf(asignaciones, usuario, ambiente);
        if NoInstructor(instructor) then
          Verdict(false, "No tienes un instructor asignado para el ambiente '" + ambiente + "'")
        else
          match PermissionIndex(permisos, instructor.value, ambiente)
          case None =>
            Verdict(false, "El instructor no ha configurado permisos para el ambiente '" + ambiente + "'")
          case Some(i) =>
            if permisos[i].habilitado then Verdict(true, "Permiso concedido por instructor")
            else Verdict(false, "El instructor ha deshabilitado los préstamos para el ambiente '" + ambiente + "'")
      else Verdict(false, "Tipo de usuario no reconocido")
  }

  /**
   * When permission is granted, stated without the chain: the admin email,
   * an instructor, or an apprentice whose assigned instructor switched the
   * environment on.
   */
  ghost predicate PermissionGranted(
    users: seq<User>, asignaciones: seq<Assignment>, permisos: seq<EnvPermission>,
    usuario: int, ambiente: string)
  {
    && FindUser(users, usuario).Some?
    && var u := FindUser(users, usuario).value;
       || u.email == "Eduard@gmail.com"
       || u.tipoUsuario == Some("instructor")
       || (&& u.tipoUsuario == Some("aprendiz")
           && exists i, p :: FirstActiveAt(asignaciones, i, usuario, ambiente)
                && asignaciones[i].instructor != 0
                && FirstPermissionAt(permisos, p, asignaciones[i].instructor, ambiente)
                && permisos[p].habilitado)
  }

  /** An apprentice granted by the chain has an assignment and a switched-on permission row. */
  lemma GrantedApprenticeWitness(
    users: seq<User>, asignaciones: seq<Assignment>, permisos: seq<EnvPermission>,
    usuario: int, ambiente: string)
    requires CheckLoanPermission(users, asignaciones, permisos, usuario, ambiente).granted
    requires FindUser(users, usuario).Some?
    requires FindUser(users, usuario).value.email != "Eduard@gmail.com"
    requires FindUser(users, usuario).value.tipoUsuario == Some("aprendiz")
    ensures PermissionGranted(users, asignaciones, permisos, usuario, ambiente)
  {
    var instructor := InstructorOf(asignaciones, usuario, ambiente);
    assert !NoInstructor(instructor);
    var i := ActiveIndex(asignaciones, usuario, ambiente).value;
    assert asignaciones[i].instructor == instructor.value;
    var p := PermissionIndex(permisos, instructor.value, ambiente).value;
    assert permisos[p].habilitado;
    assert FirstActiveAt(asignaciones, i, usuario, ambiente) && asignaciones[i].instructor != 0;
    assert FirstPermissionAt(permisos, p, asignaciones[i].instructor, ambiente);
  }

  /** An apprentice with the witnesses is granted by the chain. */
  lemma WitnessedApprenticeGranted(
    users: seq<User>, asignaciones: seq<Assignment>, permisos: seq<EnvPermission>,
    usuario: int, ambiente: string, i: int, p: int)
    requires FindUser(users, usuario).Some?
    requires FindUser(users, usuario).value.email != "Eduard@gmail.com"
    requires FindUser(users, usuario).value.tipoUsuario == Some("aprendiz")
    requires FirstActiveAt(asignaciones, i, usuario, ambiente) && asignaciones[i].instructor != 0
    requires FirstPermissionAt(permisos, p, asignaciones[i].instructor, ambiente) && permisos[p].habilitado
    ensures CheckLoanPermission(users, asignaciones, permisos, usuario, ambiente).granted
  {
    var k := ActiveIndex(asignaciones, usuario, ambiente);
    assert asignaciones[i] in asignaciones;
    FirstActiveUnique(asignaciones, i, k.value, usuario, ambiente);
    var q := PermissionIndex(permisos, asignaciones[i].instructor, ambiente);
    assert permisos[p] in permisos;
    FirstPermissionUnique(permisos, p, q.value, asignaciones[i].instructor, ambiente);
  }

  /** The chain grants exactly what `PermissionGranted` states. */
  lemma CheckLoanPermissionMeansGranted(
    users: seq<User>, asignaciones: seq<Assignment>, permisos: seq<EnvPermission>,
    usuario: int, ambiente: string)
    ensures CheckLoanPermission(users, asignaciones, permisos, usuario, ambiente).granted
        <==> PermissionGranted(users, asignaciones, permisos, usuario, ambiente)
  {
    var found := FindUser(users, usuario);
    if found.Some? && found.value.email != "Eduard@gmail.com" && found.value.tipoUsuario == Some("aprendiz") {
      if CheckLoanPermission(users, asignaciones, permisos, usuario, ambiente).granted {
        GrantedApprenticeWitness(users, asignaciones, permisos, usuario, ambiente);
      }
      if PermissionGranted(users, asignaciones, permisos, usuario, ambiente) {
        var i, p :| FirstActiveAt(asignaciones, i, usuario, ambiente)
          && asignaciones[i].instructor != 0
          && FirstPermissionAt(permisos, p, asignaciones[i].instructor, ambiente)
          && permisos[p].habilitado;
        WitnessedApprenticeGranted(users, asignaciones, permisos, usuario, ambiente, i, p);
      }
    }
  }

  lemma FirstActiveUnique(asignaciones: seq<Assignment>, i: int, k: int, aprendiz: int, ambiente: string)
    requires FirstActiveAt(asignaciones, i, aprendiz, ambiente) && FirstActiveAt(asignaciones, k, aprendiz, ambiente)
    ensures i == k
  {
  }

  lemma FirstPermissionUnique(permisos: seq<EnvPermission>, p: int, q: int, instructor: int, ambiente: string)
    requires FirstPermissionAt(permisos, p, instructor, ambiente) && FirstPermissionAt(permisos, q, instructor, ambiente)
    ensures p == q
  {
  }

  /** An instructor may request in every environment. */
  lemma InstructorAlwaysGranted(
    users: seq<User>, asignaciones: seq<Assignment>, permisos: seq<EnvPermission>,
    usuario: int, ambiente: string)
    requires FindUser(users, usuario).Some? && FindUser(users, usuario).value.tipoUsuario == Some("instructor")
    ensures CheckLoanPermission(users, asignaciones, permisos, usuario, ambiente).granted
  {
  }

  /** An apprentice without an active assignment in the environment is refused. */
  lemma UnassignedApprenticeDenied(
    users: seq<User>, asignaciones: seq<Assignment>, permisos: seq<EnvPermission>,
    usuario: int, ambiente: string)
    requires FindUser(users, usuario).Some?
    requires FindUser(users, usuario).value.email != "Eduard@gmail.com"
    requires FindUser(users, usuario).value.tipoUsuario == Some("aprendiz")
    requires forall a :: a in asignaciones ==> !ActiveAssignment(a, usuario, ambiente)
    ensures !CheckLoanPermission(users, asignaciones, permisos, usuario, ambiente).granted
  {
  }

  /** Any kind other than instructor or apprentice is refused unless it is the admin email. */
  lemma OtherKindsDenied(
    users: seq<User>, asignaciones: seq<Assignment>, permisos: seq<EnvPermission>,
    usuario: int, ambiente: string)
    requires FindUser(users, usuario).Some?
    requires FindUser(users, usuario).value.email != "Eduard@gmail.com"
    requires FindUser(users, usuario).value.tipoUsuario !in {Some("instructor"), Some("aprendiz")}
    ensures CheckLoanPermission(users, asignaciones, permisos, usuario, ambiente)
         == Verdict(false, "Tipo de usuario no reconocido")
  {
  }

  // ----- the update-or-insert writers -----

  /** At most one permission row per (instructor, environment). */
  ghost predicate UniquePermissionKeys(permisos: seq<EnvPermission>) {
    forall i, j :: 0 <= i < j < |permisos| ==>
      !(permisos[i].instructor == permisos[j].instructor && permisos[i].ambiente == permisos[j].ambiente)
  }

  /** At most one assignment row per (instructor, apprentice, environment). */
  ghost predicate UniqueAssignmentKeys(asignaciones: seq<Assignment>) {
    forall i, j :: 0 <= i < j < |asignaciones| ==>
      !SameAssignment(asignaciones[i], asignaciones[j].instructor, asignaciones[j].aprendiz, asignaciones[j].ambiente)
  }

  /**
   * `crear_permiso_ambiente`: overwrite the switch of the existing row for
   * the key, or append a row with the next id. Afterwards the key's row
   * carries the new switch, and a repeat call adds no row.
   */
  method CreateEnvPermission(db: Database, instructor: int, ambiente: string, habilitado: bool)
    requires db.Valid()
    modifies db
    ensures db.Valid()
    ensures var idx := PermissionIndex(old(db.permisos), instructor, ambiente);
      && (idx.Some? ==> db.State() == old(db.State()).(
            permisos := old(db.permisos)[idx.value := old(db.permisos)[idx.value].(habilitado := habilitado)]))
      && (idx.None? ==> db.State() == old(db.State()).(
            permisos := old(db.permisos) + [EnvPermission(old(db.lastPermiso) + 1, instructor, ambiente, habilitado)],
            lastPermiso := old(db.lastPermiso) + 1))
    ensures PermissionIndex(db.permisos, instructor, ambiente).Some?
    ensures db.permisos[PermissionIndex(db.permisos, instructor, ambiente).value].habilitado == habilitado
    ensures UniquePermissionKeys(old(db.permisos)) ==> UniquePermissionKeys(db.permisos)
  {
    var idx := PermissionIndex(db.permisos, instructor, ambiente);
    if idx.Some? {
      SwitchKeepsIndex(db.permisos, idx.value, habilitado, instructor, ambiente);
      SetSwitch(db, idx.value, habilitado);
    } else {
      AppendNewKey(db.permisos, EnvPermission(db.lastPermiso + 1, instructor, ambiente, habilitado));
      InsertPermission(db, instructor, ambiente, habilitado);
    }
  }

  /** The `UPDATE` of `crear_permiso_ambiente`: row `i` takes the new switch. */
  method SetSwitch(db: Database, i: nat, habilitado: bool)
    requires db.Valid() && i < |db.permisos|
    modifies db
    ensures db.Valid()
    ensures db.State() == old(db.State()).(
      permisos := old(db.permisos)[i := old(db.permisos)[i].(habilitado := habilitado)])
  {
    db.permisos := db.permisos[i := db.permisos[i].(habilitado := habilitado)];
  }

  /** The `INSERT` of `crear_permiso_ambiente`: a row with the next id. */
  method InsertPermission(db: Database, instructor: int, ambiente: string, habilitado: bool)
    requires db.Valid()
    modifies db
    ensures db.Valid()
    ensures db.State() == old(db.State()).(
      permisos := old(db.permisos) + [EnvPermission(old(db.lastPermiso) + 1, instructor, ambiente, habilitado)],
      lastPermiso := old(db.lastPermiso) + 1)
  {
    var p := EnvPermission(db.lastPermiso + 1, instructor, ambiente, habilitado);
    AppendPermission(db.permisos, db.lastPermiso, p);
    db.permisos := db.permisos + [p];
    db.lastPermiso := db.lastPermiso + 1;
  }

  /** Overwriting the switch of the key's row keeps it the key's row, and keeps keys unique. */
  lemma SwitchKeepsIndex(permisos: seq<EnvPermission>, i: nat, habilitado: bool, instructor: int, ambiente: string)
    requires PermissionIndex(permisos, instructor, ambiente) == Some(i)
    ensures var r := permisos[i := permisos[i].(habilitado := habilitado)];
      && PermissionIndex(r, instructor, ambiente) == Some(i) && r[i].habilitado == habilitado
      && (UniquePermissionKeys(permisos) ==> UniquePermissionKeys(r))
  {
    var r := permisos[i := permisos[i].(habilitado := habilitado)];
    assert forall j :: 0 <= j < |r| ==> r[j].instructor == permisos[j].instructor && r[j].ambiente == permisos[j].ambiente;
    KeysOnlyIndex(permisos, r, instructor, ambiente);
  }

  /** Appending a row for a key not present makes it the key's row and keeps keys unique. */
  lemma AppendNewKey(permisos: seq<EnvPermission>, p: EnvPermission)
    requires PermissionIndex(permisos, p.instructor, p.ambiente).None?
    ensures PermissionIndex(permisos + [p], p.instructor, p.ambiente) == Some(|permisos|)
    ensures UniquePermissionKeys(permisos) ==> UniquePermissionKeys(permisos + [p])
  {
    AppendedKeyIndex(permisos, p);
    var r := permisos + [p];
    if UniquePermissionKeys(permisos) {
      forall i, j | 0 <= i < j < |r|
        ensures !(r[i].instructor == r[j].instructor && r[i].ambiente == r[j].ambiente)
      {
        if j == |permisos| {
          assert r[i] == permisos[i] && permisos[i] in permisos;
        }
      }
    }
  }

  /** The first-match index depends only on the keys of the rows. */
  lemma {:induction false} KeysOnlyIndex(a: seq<EnvPermission>, b: seq<EnvPermission>, instructor: int, ambiente: string)
    requires |a| == |b|
    requires forall j :: 0 <= j < |a| ==> a[j].instructor == b[j].instructor && a[j].ambiente == b[j].ambiente
    ensures PermissionIndex(a, instructor, ambiente) == PermissionIndex(b, instructor, ambiente)
    decreases |a|
  {
    if |a| > 0 {
      KeysOnlyIndex(a[1..], b[1..], instructor, ambiente);
    }
  }

  lemma {:induction false} AppendedKeyIndex(permisos: seq<EnvPermission>, p: EnvPermission)
    requires forall q :: q in permisos ==> !(q.instructor == p.instructor && q.ambiente == p.ambiente)
    ensures PermissionIndex(permisos + [p], p.instructor, p.ambiente) == Some(|permisos|)
    decreases |permisos|
  {
    if |permisos| > 0 {
      assert (permisos + [p])[1..] == permisos[1..] + [p];
      AppendedKeyIndex(permisos[1..], p);
    }
  }

  /** The `activo` a new assignment row receives (the column default). */
  const NewAssignmentActivo := 1

  /**
   * `asignar_aprendiz_a_instructor`: reactivate the existing row for the
   * key, or append an active row with the next id. Afterwards the
   * apprentice has an active assignment to this instructor in the environment.
   */
  method AssignApprentice(db: Database, instructor: int, aprendiz: int, ambiente: string)
    requires db.Valid()
    modifies db
    ensures db.Valid()
    ensures var idx := AssignmentIndex(old(db.asignaciones), instructor, aprendiz, ambiente);
      && (idx.Some? ==> db.State() == old(db.State()).(
            asignaciones := old(db.asignaciones)[idx.value := old(db.asignaciones)[idx.value].(activo := 1)]))
      && (idx.None? ==> db.State() == old(db.State()).(
            asignaciones := old(db.asignaciones)
              + [Assignment(old(db.lastAsignacion) + 1, instructor, aprendiz, ambiente, NewAssignmentActivo)],
            lastAsignacion := old(db.lastAsignacion) + 1))
    ensures exists a :: a in db.asignaciones && SameAssignment(a, instructor, aprendiz, ambiente) && a.activo == 1
    ensures AssignmentIndex(db.asignaciones, instructor, aprendiz, ambiente).Some?
    ensures UniqueAssignmentKeys(old(db.asignaciones)) ==> UniqueAssignmentKeys(db.asignaciones)
  {
    var idx := AssignmentIndex(db.asignaciones, instructor, aprendiz, ambiente);
    if idx.Some? {
      Reactivate(db, idx.value);
      assert db.asignaciones[idx.value] == old(db.asignaciones)[idx.value].(activo := 1);
    } else {
      InsertAssignment(db, instructor, aprendiz, ambiente);
      assert db.asignaciones[|db.asignaciones| - 1]
        == Assignment(old(db.lastAsignacion) + 1, instructor, aprendiz, ambiente, NewAssignmentActivo);
    }
  }

  /** The `UPDATE` of `asignar_aprendiz_a_instructor`: row `i` becomes active. */
  method Reactivate(db: Database, i: nat)
    requires db.Valid() && i < |db.asignaciones|
    modifies db
    ensures db.Valid()
    ensures db.State() == old(db.State()).(
      asignaciones := old(db.asignaciones)[i := old(db.asignaciones)[i].(activo := 1)])
  {
    db.asignaciones := db.asignaciones[i := db.asignaciones[i].(activo := 1)];
  }

  /** The `INSERT` of `asignar_aprendiz_a_instructor`: a row with the next id. */
  method InsertAssignment(db: Database, instructor: int, aprendiz: int, ambiente: string)
    requires db.Valid()
    modifies db
    ensures db.Valid()
    ensures db.State() == old(db.State()).(
      asignaciones := old(db.asignaciones)
        + [Assignment(old(db.lastAsignacion) + 1, instructor, aprendiz, ambiente, NewAssignmentActivo)],
      lastAsignacion := old(db.lastAsignacion) + 1)
  {
    var a := Assignment(db.lastAsignacion + 1, instructor, aprendiz, ambiente, NewAssignmentActivo);
    AppendAssignment(db.asignaciones, db.lastAsignacion, a);
    db.asignaciones := db.asignaciones + [a];
    db.lastAsignacion := db.lastAsignacion + 1;
  }

  /**
   * Once assigned, the apprentice's permission in that environment comes
   * from the first active assignment's instructor: if that is this
   * instructor and the environment is switched on, the request is granted.
   */
  lemma AssignedAndEnabledGranted(
    users: seq<User>, asignaciones: seq<Assignment>, permisos: seq<EnvPermission>,
    usuario: int, ambiente: string, instructor: int)
    requires FindUser(users, usuario).Some? && FindUser(users, usuario).value.tipoUsuario == Some("aprendiz")
    requires InstructorOf(asignaciones, usuario, ambiente) == Some(instructor) && instructor != 0
    requires PermissionIndex(permisos, instructor, ambiente).Some?
    requires permisos[PermissionIndex(permisos, instructor, ambiente).value].habilitado
    ensures CheckLoanPermission(users, asignaciones, permisos, usuario, ambiente).granted
  {
  }
}
