/**
 * utils/helpers.py: the availability and role checks, the user's loan list,
 * the list of items in poor condition and the loan report. Each query is a
 * filter over row ids 1 .. counter followed by its `ORDER BY`.
 */
module Helpers {
  import opened Wrappers
  import opened Text
  import opened Tables
  import opened Sorting
  import Login
  import Instructor

  // ----- verificar_disponibilidad_implemento -----

  datatype StockCheck = StockCheck(available: bool, message: string)

  /** Existence, then stock, then condition; only then "Disponible". */
  function CheckAvailability(catalogo: map<int, Item>, id: int): (r: StockCheck)
    ensures id !in catalogo ==> r == StockCheck(false, "El implemento no existe")
    ensures id in catalogo && catalogo[id].disponibilidad <= 0 ==>
      r == StockCheck(false, "No hay unidades disponibles")
    ensures r.available <==>
      id in catalogo && catalogo[id].disponibilidad >= 1 && catalogo[id].estado != Some("Dañado")
    ensures r.available <==> r.message == "Disponible"
  {
    if id !in catalogo then StockCheck(false, "El implemento no existe")
    else if catalogo[id].disponibilidad <= 0 then StockCheck(false, "No hay unidades disponibles")
    else if catalogo[id].estado == Some("Dañado") then
      StockCheck(false, "El implemento está dañado y no puede ser prestado")
    else StockCheck(true, "Disponible")
  }

  /**
   * The instructor's approval checks stock but not condition: a loan of a
   * damaged item that this helper refuses can still be approved.
   */
  lemma DamagedItemStillApprovable()
    ensures var catalogo := map[1 := Item("Balón", "", 3, "Deportes", None, Some("Dañado"))];
      var prestamos := map[7 := Loan(2, 1, 0, "individual", "pendiente", None, None, None, None, None, None)];
      var s := Login.Session(Some(5), None, None, None, Some("instructor"), false);
      && !CheckAvailability(catalogo, 1).available
      && Instructor.LoanApproval(s, prestamos, catalogo, 7) == Instructor.Done
  {
  }

  // ----- validar_rol_usuario -----

  /** False for an unknown user; otherwise whether the user's role is allowed. */
  function HasAllowedRole(users: seq<User>, id: int, roles: seq<string>): (ok: bool)
    ensures (forall u :: u in users ==> u.id != id) ==> !ok
    ensures ok ==> exists u :: u in users && u.id == id && u.rol in roles
    ensures DistinctUserIds(users) && (exists u :: u in users && u.id == id && u.rol in roles) ==> ok
  {
    match FindUser(users, id)
    case None => false
    case Some(u) => u.rol in roles
  }

  // ----- obtener_prestamos_usuario -----

  /** A result row: the loan joined with its item's name and category. */
  datatype LoanRow = LoanRow(id: int, loan: Loan, implemento: string, categoria: string)

  /** The `WHERE` clause and the `JOIN`: the user's loan, open unless returned ones are wanted. */
  predicate ListedFor(prestamos: map<int, Loan>, catalogo: map<int, Item>, usuario: int, incluirDevueltos: bool, id: int) {
    id in prestamos && prestamos[id].usuario == usuario
    && (incluirDevueltos || prestamos[id].fechaDevolucion.None?)
    && prestamos[id].item in catalogo
  }

  function RowOf(prestamos: map<int, Loan>, catalogo: map<int, Item>, id: int): LoanRow
    requires id in prestamos && prestamos[id].item in catalogo
  {
    var loan := prestamos[id];
    LoanRow(id, loan, catalogo[loan.item].implemento, catalogo[loan.item].categoria)
  }

  /** The matching rows with ids in k .. last, in id order. */
  function UserLoanScan(
    prestamos: map<int, Loan>, catalogo: map<int, Item>, usuario: int, incluirDevueltos: bool,
    k: int, last: int): (rows: seq<LoanRow>)
    decreases last - k
    ensures forall r :: r in rows ==>
      k <= r.id <= last && ListedFor(prestamos, catalogo, usuario, incluirDevueltos, r.id)
      && r == RowOf(prestamos, catalogo, r.id)
    ensures forall i, j :: 0 <= i < j < |rows| ==> rows[i].id < rows[j].id
    ensures forall id :: k <= id <= last && ListedFor(prestamos, catalogo, usuario, incluirDevueltos, id) ==>
      RowOf(prestamos, catalogo, id) in rows
  {
    if k > last then []
    else
      var rest := UserLoanScan(prestamos, catalogo, usuario, incluirDevueltos, k + 1, last);
      if ListedFor(prestamos, catalogo, usuario, incluirDevueltos, k)
      then [RowOf(prestamos, catalogo, k)] + rest
      else rest
  }

  /** `ORDER BY p.fecha_prestamo DESC`. */
  predicate NewerFirst(a: LoanRow, b: LoanRow) { a.loan.fechaPrestamo >= b.loan.fechaPrestamo }

  /**
   * `obtener_prestamos_usuario`: exactly the listed loans, each once (a
   * permutation of the id-ordered scan), newest first.
   */
  function UserLoans(
    prestamos: map<int, Loan>, catalogo: map<int, Item>, lastPrestamo: int,
    usuario: int, incluirDevueltos: bool): (rows: seq<LoanRow>)
    requires KeysWithin(prestamos.Keys, lastPrestamo)
    ensures forall r :: r in rows ==>
      ListedFor(prestamos, catalogo, usuario, incluirDevueltos, r.id) && r == RowOf(prestamos, catalogo, r.id)
    ensures forall id :: ListedFor(prestamos, catalogo, usuario, incluirDevueltos, id) ==>
      RowOf(prestamos, catalogo, id) in rows
    ensures multiset(rows) == multiset(UserLoanScan(prestamos, catalogo, usuario, incluirDevueltos, 1, lastPrestamo))
    ensures SortedBy(rows, NewerFirst)
  {
    var scan := UserLoanScan(prestamos, catalogo, usuario, incluirDevueltos, 1, lastPrestamo);
    SortBySorted(scan, NewerFirst);
    var rows := SortBy(scan, NewerFirst);
    assert forall r :: r in rows <==> r in scan by {
      forall r ensures r in rows <==> r in scan {
        assert r in rows <==> r in multiset(rows);
        assert r in scan <==> r in multiset(scan);
      }
    }
    rows
  }

  /** Only the user's own loans are listed, and returned ones only on request. */
  lemma UserLoansAreOwnAndOpen(
    prestamos: map<int, Loan>, catalogo: map<int, Item>, lastPrestamo: int, usuario: int, r: LoanRow)
    requires KeysWithin(prestamos.Keys, lastPrestamo)
    requires r in UserLoans(prestamos, catalogo, lastPrestamo, usuario, false)
    ensures r.loan.usuario == usuario && r.loan.fechaDevolucion.None?
  {
  }

  // ----- obtener_implementos_con_problemas -----

  datatype ItemRow = ItemRow(id: int, item: Item)

  /** `WHERE estado IN ('Desgaste notable', 'Dañado')`. */
  predicate HasProblem(catalogo: map<int, Item>, id: int) {
    id in catalogo && catalogo[id].estado in {Some("Desgaste notable"), Some("Dañado")}
  }

  function ProblemScan(catalogo: map<int, Item>, k: int, last: int): (rows: seq<ItemRow>)
    decreases last - k
    ensures forall r :: r in rows ==>
      k <= r.id <= last && HasProblem(catalogo, r.id) && r.item == catalogo[r.id]
    ensures forall i, j :: 0 <= i < j < |rows| ==> rows[i].id < rows[j].id
    ensures forall id :: k <= id <= last && HasProblem(catalogo, id) ==> ItemRow(id, catalogo[id]) in rows
  {
    if k > last then []
    else
      var rest := ProblemScan(catalogo, k + 1, last);
      if HasProblem(catalogo, k) then [ItemRow(k, catalogo[k])] + rest else rest
  }

  /** `ORDER BY estado DESC, implemento`, with SQLite's binary text order. */
  predicate ProblemOrder(a: ItemRow, b: ItemRow) {
    var ea := a.item.estado.GetOr("");
    var eb := b.item.estado.GetOr("");
    (ea != eb && TextLe(eb, ea)) || (ea == eb && TextLe(a.item.implemento, b.item.implemento))
  }

  lemma ProblemOrderTotal()
    ensures Total(ProblemOrder)
  {
    forall a: ItemRow, b: ItemRow
      ensures ProblemOrder(a, b) || ProblemOrder(b, a)
    {
      TextLeTotal(a.item.estado.GetOr(""), b.item.estado.GetOr(""));
      TextLeTotal(a.item.implemento, b.item.implemento);
    }
  }

  lemma ProblemOrderTransitive()
    ensures Transitive(ProblemOrder)
  {
    forall a: ItemRow, b: ItemRow, c: ItemRow | ProblemOrder(a, b) && ProblemOrder(b, c)
      ensures ProblemOrder(a, c)
    {
      var ea, eb, ec := a.item.estado.GetOr(""), b.item.estado.GetOr(""), c.item.estado.GetOr("");
      if ea != eb && eb != ec {
        TextLeTransitive(ec, eb, ea);
        if ea == ec {
          TextLeAntisymmetric(ea, eb);
        }
      } else if ea == eb && eb == ec {
        TextLeTransitive(a.item.implemento, b.item.implemento, c.item.implemento);
      }
    }
  }

  /** Items with notable wear come before damaged ones ("Desgaste notable" > "Dañado"). */
  lemma WearBeforeDamage(a: ItemRow, b: ItemRow)
    requires a.item.estado == Some("Desgaste notable") && b.item.estado == Some("Dañado")
    ensures ProblemOrder(a, b) && !ProblemOrder(b, a)
  {
    assert TextLe("añado", "esgaste notable");
    assert TextLe("Dañado", "Desgaste notable");
  }

  /** `obtener_implementos_con_problemas`: exactly the worn or damaged items, each once, in query order. */
  function ProblemItems(catalogo: map<int, Item>, lastCatalogo: int): (rows: seq<ItemRow>)
    requires KeysWithin(catalogo.Keys, lastCatalogo)
    ensures forall r :: r in rows ==> HasProblem(catalogo, r.id) && r.item == catalogo[r.id]
    ensures forall id :: HasProblem(catalogo, id) ==> ItemRow(id, catalogo[id]) in rows
    ensures multiset(rows) == multiset(ProblemScan(catalogo, 1, lastCatalogo))
    ensures SortedBy(rows, ProblemOrder)
  {
    var scan := ProblemScan(catalogo, 1, lastCatalogo);
    ProblemOrderTotal();
    ProblemOrderTransitive();
    SortBySorted(scan, ProblemOrder);
    var rows := SortBy(scan, ProblemOrder);
    assert forall r :: r in rows <==> r in scan by {
      forall r ensures r in rows <==> r in scan {
        assert r in rows <==> r in multiset(rows);
        assert r in scan <==> r in multiset(scan);
      }
    }
    rows
  }

  // ----- generar_reporte_prestamos -----

  /** The five counts of the report. */
  datatype Report = Report(total: nat, activos: nat, devueltos: nat, individuales: nat, multiples: nat)

  /** `DATE(fecha_prestamo)`: the day number of a timestamp in seconds. */
  function Day(t: int): int { t / 86400 }

  /**
   * The optional bounds, both inclusive; an absent (or empty) bound does
   * not filter. Bounds are day numbers.
   */
  predicate InWindow(loan: Loan, desde: Option<int>, hasta: Option<int>) {
    (desde.None? || Day(loan.fechaPrestamo) >= desde.value)
    && (hasta.None? || Day(loan.fechaPrestamo) <= hasta.value)
  }

  function Count(b: bool): nat { if b then 1 else 0 }

  /** The report over the rows with ids k .. last that fall in the window. */
  function Tally(prestamos: map<int, Loan>, desde: Option<int>, hasta: Option<int>, k: int, last: int)
    : (r: Report)
    decreases last - k
    ensures r.activos + r.devueltos == r.total
    ensures r.individuales + r.multiples <= r.total
    ensures r.total <= if last < k then 0 else last - k + 1
  {
    if k > last then Report(0, 0, 0, 0, 0)
    else
      var rest := Tally(prestamos, desde, hasta, k + 1, last);
      if k in prestamos && InWindow(prestamos[k], desde, hasta) then
        var loan := prestamos[k];
        Report(rest.total + 1,
               rest.activos + Count(loan.fechaDevolucion.None?),
               rest.devueltos + Count(loan.fechaDevolucion.Some?),
               rest.individuales + Count(loan.tipoPrestamo == "individual"),
               rest.multiples + Count(loan.tipoPrestamo == "multiple"))
      else rest
  }

  /** The report's columns; each counts the window's loans that satisfy its `CASE`. */
  datatype Column = AllRows | Activos | Devueltos | Individuales | Multiples

  /** The `CASE WHEN` condition of a column (`COUNT(*)` for the total). */
  predicate CountedIn(c: Column, loan: Loan) {
    match c
    case AllRows => true
    case Activos => loan.fechaDevolucion.None?
    case Devueltos => loan.fechaDevolucion.Some?
    case Individuales => loan.tipoPrestamo == "individual"
    case Multiples => loan.tipoPrestamo == "multiple"
  }

  function Field(r: Report, c: Column): nat {
    match c
    case AllRows => r.total
    case Activos => r.activos
    case Devueltos => r.devueltos
    case Individuales => r.individuales
    case Multiples => r.multiples
  }

  /** The ids from `k` to `last` of the loans in the window that column `c` counts. */
  ghost function WindowIds(
    prestamos: map<int, Loan>, desde: Option<int>, hasta: Option<int>, c: Column, k: int, last: int)
    : set<int>
  {
    set id | id in prestamos && k <= id <= last && InWindow(prestamos[id], desde, hasta)
                && CountedIn(c, prestamos[id])
  }

  /** The counted ids from `k` on: those from `k + 1` on, plus `k` when it is counted. */
  lemma WindowIdsStep(
    prestamos: map<int, Loan>, desde: Option<int>, hasta: Option<int>, c: Column, k: int, last: int)
    requires k <= last
    ensures var rest := WindowIds(prestamos, desde, hasta, c, k + 1, last);
      && k !in rest
      && WindowIds(prestamos, desde, hasta, c, k, last)
         == if k in prestamos && InWindow(prestamos[k], desde, hasta) && CountedIn(c, prestamos[k])
            then rest + {k} else rest
  {
  }

  /** Each column of the report is the number of loans in the window that its condition counts. */
  lemma {:induction false} TallyCountsWindow(
    prestamos: map<int, Loan>, desde: Option<int>, hasta: Option<int>, c: Column, k: int, last: int)
    ensures Field(Tally(prestamos, desde, hasta, k, last), c) == |WindowIds(prestamos, desde, hasta, c, k, last)|
    decreases last - k
  {
    if k > last {
      assert WindowIds(prestamos, desde, hasta, c, k, last) == {};
    } else {
      TallyCountsWindow(prestamos, desde, hasta, c, k + 1, last);
      WindowIdsStep(prestamos, desde, hasta, c, k, last);
    }
  }

  /** Over ids 1 .. last, which hold every key, the counted ids are all the counted loans. */
  lemma WholeWindow(
    prestamos: map<int, Loan>, lastPrestamo: int, desde: Option<int>, hasta: Option<int>, c: Column)
    requires KeysWithin(prestamos.Keys, lastPrestamo)
    ensures Field(Tally(prestamos, desde, hasta, 1, lastPrestamo), c)
         == |set id | id in prestamos && InWindow(prestamos[id], desde, hasta) && CountedIn(c, prestamos[id])|
  {
    TallyCountsWindow(prestamos, desde, hasta, c, 1, lastPrestamo);
    assert WindowIds(prestamos, desde, hasta, c, 1, lastPrestamo)
        == set id | id in prestamos && InWindow(prestamos[id], desde, hasta) && CountedIn(c, prestamos[id]);
  }

  /** `generar_reporte_prestamos` over the whole table: each column counts the loans of the window it names. */
  function LoanReport(prestamos: map<int, Loan>, lastPrestamo: int, desde: Option<int>, hasta: Option<int>)
    : (r: Report)
    requires KeysWithin(prestamos.Keys, lastPrestamo)
    ensures r.activos + r.devueltos == r.total
    ensures r.total == |set id | id in prestamos && InWindow(prestamos[id], desde, hasta)|
    ensures r.activos
         == |set id | id in prestamos && InWindow(prestamos[id], desde, hasta) && prestamos[id].fechaDevolucion.None?|
    ensures r.devueltos
         == |set id | id in prestamos && InWindow(prestamos[id], desde, hasta) && prestamos[id].fechaDevolucion.Some?|
    ensures r.individuales
         == |set id | id in prestamos && InWindow(prestamos[id], desde, hasta)
                        && prestamos[id].tipoPrestamo == "individual"|
    ensures r.multiples
         == |set id | id in prestamos && InWindow(prestamos[id], desde, hasta)
                        && prestamos[id].tipoPrestamo == "multiple"|
  {
    var r := Tally(prestamos, desde, hasta, 1, lastPrestamo);
    WholeWindow(prestamos, lastPrestamo, desde, hasta, AllRows);
    WholeWindow(prestamos, lastPrestamo, desde, hasta, Activos);
    WholeWindow(prestamos, lastPrestamo, desde, hasta, Devueltos);
    WholeWindow(prestamos, lastPrestamo, desde, hasta, Individuales);
    WholeWindow(prestamos, lastPrestamo, desde, hasta, Multiples);
    assert (set id | id in prestamos && InWindow(prestamos[id], desde, hasta) && CountedIn(AllRows, prestamos[id]))
        == set id | id in prestamos && InWindow(prestamos[id], desde, hasta);
    assert (set id | id in prestamos && InWindow(prestamos[id], desde, hasta) && CountedIn(Activos, prestamos[id]))
        == set id | id in prestamos && InWindow(prestamos[id], desde, hasta) && prestamos[id].fechaDevolucion.None?;
    assert (set id | id in prestamos && InWindow(prestamos[id], desde, hasta) && CountedIn(Devueltos, prestamos[id]))
        == set id | id in prestamos && InWindow(prestamos[id], desde, hasta) && prestamos[id].fechaDevolucion.Some?;
    assert (set id | id in prestamos && InWindow(prestamos[id], desde, hasta) && CountedIn(Individuales, prestamos[id]))
        == set id | id in prestamos && InWindow(prestamos[id], desde, hasta)
                      && prestamos[id].tipoPrestamo == "individual";
    assert (set id | id in prestamos && InWindow(prestamos[id], desde, hasta) && CountedIn(Multiples, prestamos[id]))
        == set id | id in prestamos && InWindow(prestamos[id], desde, hasta)
                      && prestamos[id].tipoPrestamo == "multiple";
    assert Field(r, AllRows) == r.total && Field(r, Activos) == r.activos && Field(r, Devueltos) == r.devueltos;
    assert Field(r, Individuales) == r.individuales && Field(r, Multiples) == r.multiples;
    r
  }

  /** Both bounds are inclusive: a loan made on the first or last day of the window counts. */
  lemma WindowInclusive(loan: Loan, desde: int, hasta: int)
    requires desde <= hasta
    requires Day(loan.fechaPrestamo) == desde || Day(loan.fechaPrestamo) == hasta
    ensures InWindow(loan, Some(desde), Some(hasta))
  {
  }
}
