/**
 * test_devolucion_novedades.py: returning a loan with a novelty report. A
 * return gives one unit back unless the novelty is grave, never leaves the
 * stock negative, records the novelty on the loan, overwrites the item's
 * condition, and builds the notification text. The clock reading is a
 * parameter.
 */
module Devolucion {
  import opened Wrappers
  import opened Text
  import opened Tables

  /** `novedades_que_reducen_cantidad`. */
  const GraveNovelties: seq<string> := ["Daño", "Robo", "Desgaste excesivo", "Pérdida"]

  /** `cantidad_a_reducir`: one unit is written off for a grave novelty. */
  function Reduction(novedad: string): (r: int)
    ensures r == 1 <==> novedad in GraveNovelties
    ensures r == 0 <==> novedad !in GraveNovelties
  {
    if novedad in GraveNovelties then 1 else 0
  }

  /** `nueva_disponibilidad`: previous + 1 - reduction, floored at 0. */
  function NewAvailability(before: int, novedad: string): (r: int)
    ensures r >= 0
    ensures r >= before + 1 - Reduction(novedad)
    ensures r > 0 ==> r == before + 1 - Reduction(novedad)
  {
    var n := before + 1 - Reduction(novedad);
    if n < 0 then 0 else n
  }

  /** A grave novelty leaves the stock as it was; any other novelty adds exactly one unit. */
  lemma ReturnNetEffect(before: int, novedad: string)
    requires before >= 0
    ensures novedad in GraveNovelties ==> NewAvailability(before, novedad) == before
    ensures novedad !in GraveNovelties ==> NewAvailability(before, novedad) == before + 1
  {
  }

  /**
   * Approval takes a unit and a return gives it back: after both, the stock
   * is where it started unless the novelty was grave, and one lower if it was.
   */
  lemma ApproveThenReturn(stock: int, novedad: string)
    requires stock > 0
    ensures NewAvailability(stock - 1, novedad) == stock - Reduction(novedad)
  {
  }

  /** The note appended for a grave novelty. */
  const ReductionNote: string := " - Se redujo la cantidad disponible del implemento"

  function MessageBase(implemento: string): string {
    "Devolución de " + implemento + " por Usuario Prueba"
  }

  /** What `mensaje_notif` gains from the novelty: nothing for "Ninguna". */
  function NoveltyPart(novedad: string): string {
    if novedad == "Ninguna" then ""
    else " - Novedad: " + novedad + (if novedad in GraveNovelties then ReductionNote else "")
  }

  /** What `mensaje_notif` gains from the condition: nothing for "Bueno". */
  function ConditionPart(estado: string): string {
    if estado == "Bueno" then "" else " - Estado: " + estado
  }

  /** `mensaje_notif`, built in the script's three steps. */
  function ReturnMessage(implemento: string, novedad: string, estado: string): (m: string)
    ensures MessageBase(implemento) <= m
    ensures m == MessageBase(implemento) <==> novedad == "Ninguna" && estado == "Bueno"
  {
    var base := MessageBase(implemento);
    assert base <= base + NoveltyPart(novedad) + ConditionPart(estado);
    base + NoveltyPart(novedad) + ConditionPart(estado)
  }

  /**
   * The message ends with the condition when it is not "Bueno", carries the
   * novelty with the write-off note when the novelty is grave, and ends with
   * the bare novelty when it is neither grave nor "Ninguna" and the
   * condition is "Bueno".
   */
  lemma ReturnMessageMentions(implemento: string, novedad: string, estado: string)
    ensures estado != "Bueno" ==> EndsWith(ReturnMessage(implemento, novedad, estado), " - Estado: " + estado)
    ensures novedad in GraveNovelties ==>
      Contains(ReturnMessage(implemento, novedad, estado), " - Novedad: " + novedad + ReductionNote)
    ensures estado == "Bueno" && novedad != "Ninguna" && novedad !in GraveNovelties ==>
      EndsWith(ReturnMessage(implemento, novedad, estado), " - Novedad: " + novedad)
  {
    var base := MessageBase(implemento);
    var m := ReturnMessage(implemento, novedad, estado);
    EndsWithAppend(base + NoveltyPart(novedad), ConditionPart(estado));
    if novedad in GraveNovelties {
      assert NoveltyPart(novedad) == " - Novedad: " + novedad + ReductionNote;
      ContainsMiddle(base, NoveltyPart(novedad), ConditionPart(estado));
    }
    if estado == "Bueno" && novedad != "Ninguna" && novedad !in GraveNovelties {
      assert m == base + (" - Novedad: " + novedad);
      EndsWithAppend(base, " - Novedad: " + novedad);
    }
  }

  /** With "Ninguna" no novelty text is added, whatever the condition. */
  lemma ReturnMessageWithoutNovelty(implemento: string, estado: string)
    ensures ReturnMessage(implemento, "Ninguna", estado) == MessageBase(implemento) + ConditionPart(estado)
  {
    assert NoveltyPart("Ninguna") == "";
    assert MessageBase(implemento) + NoveltyPart("Ninguna") == MessageBase(implemento);
  }

  /** With "Bueno" nothing follows the novelty part. */
  lemma ReturnMessageGoodCondition(implemento: string, novedad: string)
    ensures ReturnMessage(implemento, novedad, "Bueno") == MessageBase(implemento) + NoveltyPart(novedad)
  {
    assert ConditionPart("Bueno") == "";
  }

  /** A novelty other than "Ninguna" carries the write-off note iff it is grave. */
  lemma ReturnMessageNoteIffGrave(implemento: string, novedad: string, estado: string)
    requires novedad != "Ninguna"
    ensures ReturnMessage(implemento, novedad, estado)
         == MessageBase(implemento) + " - Novedad: " + novedad + ReductionNote + ConditionPart(estado)
       <==> novedad in GraveNovelties
  {
    var base, tag, cond := MessageBase(implemento), " - Novedad: ", ConditionPart(estado);
    var m := ReturnMessage(implemento, novedad, estado);
    if novedad in GraveNovelties {
      assert NoveltyPart(novedad) == tag + novedad + ReductionNote;
      Regroup(base, tag, novedad, ReductionNote, cond);
    } else {
      assert NoveltyPart(novedad) == tag + novedad + "";
      assert |m| == |base| + |tag| + |novedad| + |cond|;
      assert |ReductionNote| > 0;
    }
  }

  lemma Regroup(a: string, b: string, c: string, d: string, e: string)
    ensures a + (b + c + d) + e == a + b + c + d + e
  {
  }

  /** A loan not yet returned, whose item exists (the script's `JOIN ... WHERE fecha_devolucion IS NULL`). */
  predicate OpenLoan(prestamos: map<int, Loan>, catalogo: map<int, Item>, id: int) {
    id in prestamos && prestamos[id].fechaDevolucion.None? && prestamos[id].item in catalogo
  }

  /**
   * The first row of the open-loan query (`ORDER BY p.id DESC`): the open
   * loan with the largest id, scanning ids down from the table counter.
   */
  method NewestOpenLoan(db: Database) returns (r: Option<int>)
    requires db.Valid()
    ensures r.Some? ==> OpenLoan(db.prestamos, db.catalogo, r.value)
    ensures r.Some? ==> forall k :: k > r.value ==> !OpenLoan(db.prestamos, db.catalogo, k)
    ensures r.None? ==> forall k :: !OpenLoan(db.prestamos, db.catalogo, k)
  {
    var k := db.lastPrestamo;
    while k >= 1
      invariant 0 <= k <= db.lastPrestamo
      invariant forall j :: j > k ==> !OpenLoan(db.prestamos, db.catalogo, j)
    {
      if OpenLoan(db.prestamos, db.catalogo, k) {
        return Some(k);
      }
      k := k - 1;
    }
    assert KeysWithin(db.prestamos.Keys, db.lastPrestamo);
    return None;
  }

  /**
   * `after` is `before` with loan `id`, the newest open loan, returned:
   * date, novelty, condition and remarks recorded on the loan, the item's
   * stock set to `NewAvailability` and its condition overwritten.
   */
  ghost predicate ReturnedAs(
    before: Snapshot, after: Snapshot, id: int, message: string,
    novedad: string, estado: string, observaciones: string, ahora: int)
  {
    && OpenLoan(before.prestamos, before.catalogo, id)
    && (forall k :: k > id ==> !OpenLoan(before.prestamos, before.catalogo, k))
    && var loan := before.prestamos[id];
       var item := before.catalogo[loan.item];
       && message == ReturnMessage(item.implemento, novedad, estado)
       && after == before.(
            prestamos := before.prestamos[id := loan.(
              fechaDevolucion := Some(ahora), novedad := Some(novedad),
              estadoDevolucion := Some(estado), observaciones := Some(observaciones))],
            catalogo := before.catalogo[loan.item := item.(
              disponibilidad := NewAvailability(item.disponibilidad, novedad),
              estado := Some(estado))])
  }

  /**
   * The return: on the newest open loan, record date, novelty, condition and
   * remarks; set the item's stock to `NewAvailability`; overwrite its
   * condition. With no open loan nothing is written. The loan's approval
   * state is left as it was.
   */
  method ReturnNewestLoan(db: Database, novedad: string, estado: string, observaciones: string, ahora: int)
    returns (r: Option<string>)
    requires db.Valid()
    modifies db
    ensures db.Valid()
    ensures r.None? <==> forall k :: !OpenLoan(old(db.prestamos), old(db.catalogo), k)
    ensures r.None? ==> db.State() == old(db.State())
    ensures r.Some? ==> exists id :: ReturnedAs(old(db.State()), db.State(), id, r.value, novedad, estado, observaciones, ahora)
  {
    var found := NewestOpenLoan(db);
    if found.None? {
      return None;
    }
    var id := found.value;
    var loan := db.prestamos[id];
    var item := db.catalogo[loan.item];
    var nueva := NewAvailability(item.disponibilidad, novedad);
    db.prestamos := db.prestamos[id := loan.(
      fechaDevolucion := Some(ahora), novedad := Some(novedad),
      estadoDevolucion := Some(estado), observaciones := Some(observaciones))];
    db.catalogo := db.catalogo[loan.item := item.(disponibilidad := nueva)];
    db.catalogo := db.catalogo[loan.item := db.catalogo[loan.item].(estado := Some(estado))];
    r := Some(ReturnMessage(item.implemento, novedad, estado));
    assert ReturnedAs(old(db.State()), db.State(), id, r.value, novedad, estado, observaciones, ahora);
  }
}
