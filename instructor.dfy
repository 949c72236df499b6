/**
 * routes/instructor.py: the approval state machine. A pending loan becomes
 * "activo" or "rechazado"; a pending reservation becomes "aprobada" or
 * "rechazada". Approval needs stock, takes one unit, and for a reservation
 * needs no clash with another approved reservation of the same item. Each
 * decision marks the deciding instructor's notifications about it as read.
 */
module Instructor {
  import opened Wrappers
  import opened Tables
  import Login

  /**
   * `is_instructor_or_admin`: the role check the handlers run after
   * `login_required`. For a logged-in session it admits exactly what the
   * `instructor_required` decorator admits.
   */
  function IsInstructorOrAdmin(s: Login.Session): (b: bool)
    ensures s.userId.Some? ==> (b <==> Login.InstructorRequired(s) == Login.Admit)
  {
    s.rol == Some("instructor") || s.rol == Some("admin")
  }

  /** How a handler ends; only `Done` writes anything. */
  datatype Decision =
    | NeedsLogin          // `login_required` redirect
    | NotPermitted        // role check failed
    | NotFoundOrProcessed // no pending row joined to an existing item
    | NoAvailability      // `disponibilidad <= 0`
    | ScheduleConflict    // an approved reservation clashes
    | Done

  /** Every item's stock is non-negative. */
  ghost predicate StockNonNegative(catalogo: map<int, Item>) {
    forall k :: k in catalogo ==> catalogo[k].disponibilidad >= 0
  }

  /** The catalogue after one unit of an item in stock is handed out. */
  function TakeOne(catalogo: map<int, Item>, item: int): (c: map<int, Item>)
    requires item in catalogo
    ensures c.Keys == catalogo.Keys
    ensures catalogo[item].disponibilidad > 0 && StockNonNegative(catalogo) ==> StockNonNegative(c)
  {
    catalogo[item := catalogo[item].(disponibilidad := catalogo[item].disponibilidad - 1)]
  }

  // ----- notifications -----

  predicate IsAbout(n: Notification, instructor: int, tipo: string, referencia: int) {
    n.instructor == instructor && n.tipo == tipo && n.referencia == referencia
  }

  /**
   * `UPDATE notificaciones SET leida = 1 WHERE fk_instructor = ? AND tipo = ?
   * AND fk_referencia = ?`: exactly the matching rows become read.
   */
  function MarkRead(ns: map<int, Notification>, instructor: int, tipo: string, referencia: int)
    : (r: map<int, Notification>)
    ensures r.Keys == ns.Keys
    ensures forall k :: k in ns ==>
      && r[k].instructor == ns[k].instructor && r[k].tipo == ns[k].tipo
      && r[k].referencia == ns[k].referencia
      && (r[k].leida <==> ns[k].leida || IsAbout(ns[k], instructor, tipo, referencia))
  {
    map k | k in ns :: if IsAbout(ns[k], instructor, tipo, referencia) then ns[k].(leida := true) else ns[k]
  }

  /** `marcar_notificaciones_leidas`: every notification of this instructor becomes read. */
  function MarkAllRead(ns: map<int, Notification>, instructor: int): (r: map<int, Notification>)
    ensures r.Keys == ns.Keys
    ensures forall k :: k in ns && ns[k].instructor != instructor ==> r[k] == ns[k]
    ensures forall k :: k in ns && ns[k].instructor == instructor ==> r[k] == ns[k].(leida := true)
  {
    map k | k in ns :: if ns[k].instructor == instructor then ns[k].(leida := true) else ns[k]
  }

  lemma MarkReadIdempotent(ns: map<int, Notification>, instructor: int, tipo: string, referencia: int)
    ensures MarkRead(MarkRead(ns, instructor, tipo, referencia), instructor, tipo, referencia)
         == MarkRead(ns, instructor, tipo, referencia)
  {
  }

  lemma MarkAllReadIdempotent(ns: map<int, Notification>, instructor: int)
    ensures MarkAllRead(MarkAllRead(ns, instructor), instructor) == MarkAllRead(ns, instructor)
  {
  }

  /** Marking everything read after a single decision is the same as marking everything read. */
  lemma MarkAllReadAbsorbs(ns: map<int, Notification>, instructor: int, tipo: string, referencia: int)
    ensures MarkAllRead(MarkRead(ns, instructor, tipo, referencia), instructor) == MarkAllRead(ns, instructor)
  {
  }

  // ----- the reservation conflict predicate -----

  /** SQL `x BETWEEN lo AND hi`, inclusive at both ends. */
  predicate Between(x: int, lo: int, hi: int) { lo <= x <= hi }

  /**
   * The four `BETWEEN` clauses comparing the window being approved,
   * [inicio, fin], with another reservation's [oInicio, oFin].
   */
  predicate WindowsConflict(inicio: int, fin: int, oInicio: int, oFin: int) {
    || Between(oInicio, inicio, fin)
    || Between(oFin, inicio, fin)
    || Between(inicio, oInicio, oFin)
    || Between(fin, oInicio, oFin)
  }

  lemma ConflictSymmetric(a: int, b: int, c: int, d: int)
    ensures WindowsConflict(a, b, c, d) <==> WindowsConflict(c, d, a, b)
  {
  }

  /** For well-formed windows the predicate is closed-interval overlap. */
  lemma ConflictIsClosedOverlap(inicio: int, fin: int, oInicio: int, oFin: int)
    requires inicio <= fin && oInicio <= oFin
    ensures WindowsConflict(inicio, fin, oInicio, oFin) <==> oInicio <= fin && inicio <= oFin
  {
  }

  /** Back-to-back windows that share an endpoint conflict. */
  lemma TouchingWindowsConflict(inicio: int, fin: int, oFin: int)
    requires inicio <= fin <= oFin
    ensures WindowsConflict(inicio, fin, fin, oFin)
  {
  }

  /**
   * `fecha_inicio < fecha_fin` is never checked: an inverted window [9, 1]
   * is not found to clash with an approved [2, 8] lying between its ends.
   */
  lemma InvertedWindowEscapesCheck()
    ensures !WindowsConflict(9, 1, 2, 8)
  {
  }

  /** Reservation `k` is approved, on `item`, not `id`, and its window clashes with [inicio, fin]. */
  predicate ConflictsWith(rs: map<int, Reservation>, k: int, id: int, item: int, inicio: int, fin: int)
    requires k in rs
  {
    k != id && rs[k].item == item && rs[k].estado == "aprobada"
    && WindowsConflict(inicio, fin, rs[k].inicio, rs[k].fin)
  }

  /** The `WHERE` clause of the conflict query holds for some row. */
  predicate HasApprovedConflict(rs: map<int, Reservation>, id: int, item: int, inicio: int, fin: int) {
    exists k :: k in rs && ConflictsWith(rs, k, id, item, inicio, fin)
  }

  ghost function ConflictIdsBelow(rs: map<int, Reservation>, id: int, item: int, inicio: int, fin: int, bound: int)
    : set<int>
  {
    set k | k in rs && k < bound && ConflictsWith(rs, k, id, item, inicio, fin)
  }

  /**
   * The conflict query's `COUNT(*)`, as a scan of row ids 1 .. counter: the
   * number of clashing rows, positive exactly when a clash exists.
   */
  method CountConflicts(db: Database, id: int, item: int, inicio: int, fin: int) returns (n: nat)
    requires db.Valid()
    ensures n == |ConflictIdsBelow(db.reservas, id, item, inicio, fin, db.lastReserva + 1)|
    ensures n > 0 <==> HasApprovedConflict(db.reservas, id, item, inicio, fin)
  {
    n := 0;
    var k := 1;
    while k <= db.lastReserva
      invariant 1 <= k <= db.lastReserva + 1
      invariant n == |ConflictIdsBelow(db.reservas, id, item, inicio, fin, k)|
      invariant n > 0 <==> exists j :: j in db.reservas && j < k && ConflictsWith(db.reservas, j, id, item, inicio, fin)
    {
      ghost var before := ConflictIdsBelow(db.reservas, id, item, inicio, fin, k);
      if k in db.reservas && ConflictsWith(db.reservas, k, id, item, inicio, fin) {
        assert ConflictIdsBelow(db.reservas, id, item, inicio, fin, k + 1) == before + {k};
        n := n + 1;
      } else {
        assert ConflictIdsBelow(db.reservas, id, item, inicio, fin, k + 1) == before;
      }
      k := k + 1;
    }
    assert KeysWithin(db.reservas.Keys, db.lastReserva);
  }

  /** No two approved reservations of one item have clashing windows. */
  ghost predicate ApprovedCompatible(rs: map<int, Reservation>) {
    forall k1, k2 :: k1 in rs && k2 in rs && rs[k1].estado == "aprobada" ==>
      !ConflictsWith(rs, k2, k1, rs[k1].item, rs[k1].inicio, rs[k1].fin)
  }

  /** Approving a reservation that the conflict query clears keeps approved windows compatible. */
  lemma {:induction false} ApprovalKeepsCompatible(rs: map<int, Reservation>, id: int, autorizador: Option<int>)
    requires id in rs && ApprovedCompatible(rs)
    requires !HasApprovedConflict(rs, id, rs[id].item, rs[id].inicio, rs[id].fin)
    ensures ApprovedCompatible(rs[id := rs[id].(estado := "aprobada", autorizador := autorizador)])
  {
    var r := rs[id];
    var rs' := rs[id := r.(estado := "aprobada", autorizador := autorizador)];
    forall k1, k2 | k1 in rs' && k2 in rs' && rs'[k1].estado == "aprobada"
      ensures !ConflictsWith(rs', k2, k1, rs'[k1].item, rs'[k1].inicio, rs'[k1].fin)
    {
      if k1 == id {
        if k2 != id {
          assert !ConflictsWith(rs, k2, id, r.item, r.inicio, r.fin);
        }
      } else if k2 == id {
        assert !ConflictsWith(rs, k1, id, r.item, r.inicio, r.fin);
        ConflictSymmetric(r.inicio, r.fin, rs[k1].inicio, rs[k1].fin);
      } else {
        assert !ConflictsWith(rs, k2, k1, rs[k1].item, rs[k1].inicio, rs[k1].fin);
      }
    }
  }

  /** Any change that approves nothing new keeps approved windows compatible. */
  lemma {:induction false} NonApprovalKeepsCompatible(rs: map<int, Reservation>, id: int, r: Reservation)
    requires id in rs && ApprovedCompatible(rs) && r.estado != "aprobada"
    ensures ApprovedCompatible(rs[id := r])
  {
    var rs' := rs[id := r];
    forall k1, k2 | k1 in rs' && k2 in rs' && rs'[k1].estado == "aprobada"
      ensures !ConflictsWith(rs', k2, k1, rs'[k1].item, rs'[k1].inicio, rs'[k1].fin)
    {
      if k2 != id {
        assert !ConflictsWith(rs, k2, k1, rs[k1].item, rs[k1].inicio, rs[k1].fin);
      }
    }
  }

  /** With well-formed windows, approved reservations of one item never share an instant. */
  lemma CompatibleMeansDisjoint(rs: map<int, Reservation>, k1: int, k2: int)
    requires ApprovedCompatible(rs) && k1 in rs && k2 in rs && k1 != k2
    requires rs[k1].estado == "aprobada" && rs[k2].estado == "aprobada" && rs[k1].item == rs[k2].item
    requires rs[k1].inicio <= rs[k1].fin && rs[k2].inicio <= rs[k2].fin
    ensures rs[k1].fin < rs[k2].inicio || rs[k2].fin < rs[k1].inicio
  {
    assert !ConflictsWith(rs, k2, k1, rs[k1].item, rs[k1].inicio, rs[k1].fin);
    ConflictIsClosedOverlap(rs[k1].inicio, rs[k1].fin, rs[k2].inicio, rs[k2].fin);
  }

  // ----- the decisions, as functions of the state the handler reads -----

  /** The guards every handler runs first: `login_required`, then the role check. */
  function Gate(s: Login.Session): (d: Option<Decision>)
    ensures d == Some(NeedsLogin) <==> s.userId.None?
    ensures d == Some(NotPermitted) <==> s.userId.Some? && !IsInstructorOrAdmin(s)
    ensures d.None? <==> s.userId.Some? && IsInstructorOrAdmin(s)
  {
    if s.userId.None? then Some(NeedsLogin)
    else if !IsInstructorOrAdmin(s) then Some(NotPermitted)
    else None
  }

  /** The loan row the approval and rejection queries find: pending, joined to an existing item. */
  predicate PendingLoan(prestamos: map<int, Loan>, catalogo: map<int, Item>, id: int) {
    id in prestamos && prestamos[id].estado == "pendiente" && prestamos[id].item in catalogo
  }

  predicate PendingReservation(reservas: map<int, Reservation>, catalogo: map<int, Item>, id: int) {
    id in reservas && reservas[id].estado == "pendiente" && reservas[id].item in catalogo
  }

  /** `aprobar_prestamo`'s decision. */
  function LoanApproval(s: Login.Session, prestamos: map<int, Loan>, catalogo: map<int, Item>, id: int)
    : (d: Decision)
    ensures d != ScheduleConflict
    ensures d == Done ==>
      && s.userId.Some? && IsInstructorOrAdmin(s) && PendingLoan(prestamos, catalogo, id)
      && catalogo[prestamos[id].item].disponibilidad > 0
    ensures d == NoAvailability ==>
      PendingLoan(prestamos, catalogo, id) && catalogo[prestamos[id].item].disponibilidad <= 0
    ensures Gate(s).None? && !PendingLoan(prestamos, catalogo, id) ==> d == NotFoundOrProcessed
    ensures Gate(s).None? && PendingLoan(prestamos, catalogo, id) ==>
      (d == Done <==> catalogo[prestamos[id].item].disponibilidad > 0)
    ensures Gate(s).None? && PendingLoan(prestamos, catalogo, id) ==>
      (d == NoAvailability <==> catalogo[prestamos[id].item].disponibilidad <= 0)
    ensures Gate(s).Some? ==> d == Gate(s).value
  {
    if Gate(s).Some? then Gate(s).value
    else if !PendingLoan(prestamos, catalogo, id) then NotFoundOrProcessed
    else if catalogo[prestamos[id].item].disponibilidad <= 0 then NoAvailability
    else Done
  }

  /** `rechazar_prestamo` and `rechazar_reserva` decide on the guards and the pending row alone. */
  function Rejection(s: Login.Session, pending: bool): (d: Decision)
    ensures d == Done <==> Gate(s).None? && pending
    ensures d != NoAvailability && d != ScheduleConflict
  {
    if Gate(s).Some? then Gate(s).value
    else if !pending then NotFoundOrProcessed
    else Done
  }

  /** `aprobar_reserva`'s decision: guards, pending row, stock, then the conflict query. */
  function ReservationApproval(
    s: Login.Session, reservas: map<int, Reservation>, catalogo: map<int, Item>, id: int)
    : (d: Decision)
    ensures d == Done ==>
      && s.userId.Some? && IsInstructorOrAdmin(s) && PendingReservation(reservas, catalogo, id)
      && catalogo[reservas[id].item].disponibilidad > 0
      && !HasApprovedConflict(reservas, id, reservas[id].item, reservas[id].inicio, reservas[id].fin)
    ensures d == ScheduleConflict ==>
      && PendingReservation(reservas, catalogo, id) && catalogo[reservas[id].item].disponibilidad > 0
      && HasApprovedConflict(reservas, id, reservas[id].item, reservas[id].inicio, reservas[id].fin)
    ensures Gate(s).None? && !PendingReservation(reservas, catalogo, id) ==> d == NotFoundOrProcessed
    ensures d == NoAvailability <==>
      Gate(s).None? && PendingReservation(reservas, catalogo, id)
      && catalogo[reservas[id].item].disponibilidad <= 0
    ensures d == Done <==>
      && Gate(s).None? && PendingReservation(reservas, catalogo, id)
      && catalogo[reservas[id].item].disponibilidad > 0
      && !HasApprovedConflict(reservas, id, reservas[id].item, reservas[id].inicio, reservas[id].fin)
    ensures Gate(s).Some? ==> d == Gate(s).value
  {
    if Gate(s).Some? then Gate(s).value
    else if !PendingReservation(reservas, catalogo, id) then NotFoundOrProcessed
    else
      var r := reservas[id];
      if catalogo[r.item].disponibilidad <= 0 then NoAvailability
      else if HasApprovedConflict(reservas, id, r.item, r.inicio, r.fin) then ScheduleConflict
      else Done
  }

  /** `request.form.get('motivo', 'No especificado')`: a present field is kept, even if empty. */
  function Motivo(field: Option<string>): (m: string)
    ensures field.None? ==> m == "No especificado"
    ensures field.Some? ==> m == field.value
  {
    field.GetOr("No especificado")
  }

  // ----- the handlers -----

  /**
   * `aprobar_prestamo`: the loan becomes "activo" with the session user as
   * authoriser, its item loses exactly one unit, and the instructor's
   * notifications about this loan become read. Anything else: no change.
   */
  method ApproveLoan(db: Database, s: Login.Session, id: int) returns (d: Decision)
    requires db.Valid()
    modifies db
    ensures db.Valid()
    ensures d == LoanApproval(s, old(db.prestamos), old(db.catalogo), id)
    ensures d != Done ==> db.State() == old(db.State())
    ensures d == Done ==>
      var loan := old(db.prestamos)[id];
      db.State() == old(db.State()).(
        prestamos := old(db.prestamos)[id := loan.(estado := "activo", autorizador := s.userId)],
        catalogo := TakeOne(old(db.catalogo), loan.item),
        notificaciones := MarkRead(old(db.notificaciones), s.userId.value, "prestamo", id))
    ensures StockNonNegative(old(db.catalogo)) ==> StockNonNegative(db.catalogo)
  {
    d := LoanApproval(s, db.prestamos, db.catalogo, id);
    if d != Done {
      return;
    }
    var loan := db.prestamos[id];
    db.prestamos := db.prestamos[id := loan.(estado := "activo", autorizador := s.userId)];
    db.catalogo := TakeOne(db.catalogo, loan.item);
    db.notificaciones := MarkRead(db.notificaciones, s.userId.value, "prestamo", id);
  }

  /**
   * `rechazar_prestamo`: a pending loan becomes "rechazado" with authoriser
   * and reason; stock is untouched.
   */
  method RejectLoan(db: Database, s: Login.Session, id: int, motivo: Option<string>) returns (d: Decision)
    requires db.Valid()
    modifies db
    ensures db.Valid()
    ensures d == Rejection(s, PendingLoan(old(db.prestamos), old(db.catalogo), id))
    ensures d != Done ==> db.State() == old(db.State())
    ensures d == Done ==>
      db.State() == old(db.State()).(
        prestamos := old(db.prestamos)[id := old(db.prestamos)[id].(
          estado := "rechazado", autorizador := s.userId, motivoRechazo := Some(Motivo(motivo)))],
        notificaciones := MarkRead(old(db.notificaciones), s.userId.value, "prestamo", id))
  {
    d := Rejection(s, PendingLoan(db.prestamos, db.catalogo, id));
    if d != Done {
      return;
    }
    db.prestamos := db.prestamos[id := db.prestamos[id].(
      estado := "rechazado", autorizador := s.userId, motivoRechazo := Some(Motivo(motivo)))];
    db.notificaciones := MarkRead(db.notificaciones, s.userId.value, "prestamo", id);
  }

  /**
   * `aprobar_reserva`: after the guards, the pending row and the stock check,
   * the conflict query must count no clashing approved reservation; then the
   * reservation becomes "aprobada", its item loses one unit and the
   * notifications about it become read. Approved windows stay compatible.
   */
  method ApproveReservation(db: Database, s: Login.Session, id: int) returns (d: Decision)
    requires db.Valid()
    modifies db
    ensures db.Valid()
    ensures d == ReservationApproval(s, old(db.reservas), old(db.catalogo), id)
    ensures d != Done ==> db.State() == old(db.State())
    ensures d == Done ==>
      var r := old(db.reservas)[id];
      db.State() == old(db.State()).(
        reservas := old(db.reservas)[id := r.(estado := "aprobada", autorizador := s.userId)],
        catalogo := TakeOne(old(db.catalogo), r.item),
        notificaciones := MarkRead(old(db.notificaciones), s.userId.value, "reserva", id))
    ensures StockNonNegative(old(db.catalogo)) ==> StockNonNegative(db.catalogo)
    ensures ApprovedCompatible(old(db.reservas)) ==> ApprovedCompatible(db.reservas)
  {
    d := ReservationApproval(s, db.reservas, db.catalogo, id);
    if Gate(s).Some? || !PendingReservation(db.reservas, db.catalogo, id) {
      return;
    }
    var r := db.reservas[id];
    if db.catalogo[r.item].disponibilidad <= 0 {
      return;
    }
    var conflictos := CountConflicts(db, id, r.item, r.inicio, r.fin);
    if conflictos > 0 {
      return;
    }
    CommitReservation(db, s.userId.value, id);
  }

  /** The three writes of an approved reservation, committed together. */
  method CommitReservation(db: Database, autorizador: int, id: int)
    requires db.Valid() && id in db.reservas && db.reservas[id].item in db.catalogo
    modifies db
    ensures db.Valid()
    ensures
      var r := old(db.reservas)[id];
      db.State() == old(db.State()).(
        reservas := old(db.reservas)[id := r.(estado := "aprobada", autorizador := Some(autorizador))],
        catalogo := TakeOne(old(db.catalogo), r.item),
        notificaciones := MarkRead(old(db.notificaciones), autorizador, "reserva", id))
    ensures ApprovedCompatible(old(db.reservas))
      && !HasApprovedConflict(old(db.reservas), id, old(db.reservas)[id].item, old(db.reservas)[id].inicio, old(db.reservas)[id].fin)
      ==> ApprovedCompatible(db.reservas)
  {
    var r := db.reservas[id];
    if ApprovedCompatible(db.reservas) && !HasApprovedConflict(db.reservas, id, r.item, r.inicio, r.fin) {
      ApprovalKeepsCompatible(db.reservas, id, Some(autorizador));
    }
    db.reservas := db.reservas[id := r.(estado := "aprobada", autorizador := Some(autorizador))];
    db.catalogo := TakeOne(db.catalogo, r.item);
    db.notificaciones := MarkRead(db.notificaciones, autorizador, "reserva", id);
  }

  /** `rechazar_reserva`: a pending reservation becomes "rechazada" with authoriser and reason. */
  method RejectReservation(db: Database, s: Login.Session, id: int, motivo: Option<string>)
    returns (d: Decision)
    requires db.Valid()
    modifies db
    ensures db.Valid()
    ensures d == Rejection(s, PendingReservation(old(db.reservas), old(db.catalogo), id))
    ensures d != Done ==> db.State() == old(db.State())
    ensures d == Done ==>
      db.State() == old(db.State()).(
        reservas := old(db.reservas)[id := old(db.reservas)[id].(
          estado := "rechazada", autorizador := s.userId, motivoRechazo := Some(Motivo(motivo)))],
        notificaciones := MarkRead(old(db.notificaciones), s.userId.value, "reserva", id))
    ensures ApprovedCompatible(old(db.reservas)) ==> ApprovedCompatible(db.reservas)
  {
    d := Rejection(s, PendingReservation(db.reservas, db.catalogo, id));
    if d != Done {
      return;
    }
    var r := db.reservas[id].(
      estado := "rechazada", autorizador := s.userId, motivoRechazo := Some(Motivo(motivo)));
    if ApprovedCompatible(db.reservas) {
      NonApprovalKeepsCompatible(db.reservas, id, r);
    }
    db.reservas := db.reservas[id := r];
    db.notificaciones := MarkRead(db.notificaciones, s.userId.value, "reserva", id);
  }

  /** `marcar_notificaciones_leidas`: all of the session user's notifications become read. */
  method MarkNotificationsRead(db: Database, s: Login.Session) returns (d: Decision)
    requires db.Valid()
    modifies db
    ensures db.Valid()
    ensures d == Gate(s).GetOr(Done)
    ensures d != Done ==> db.State() == old(db.State())
    ensures d == Done ==>
      db.State() == old(db.State()).(notificaciones := MarkAllRead(old(db.notificaciones), s.userId.value))
  {
    d := Gate(s).GetOr(Done);
    if d != Done {
      return;
    }
    db.notificaciones := MarkAllRead(db.notificaciones, s.userId.value);
  }
}
