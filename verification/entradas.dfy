/** The stock receipts log (`entradas_productos`) and its repository: an append-only table
    with listing, lookup by id, by product and by date. */
module Entradas {
  import opened Wrappers
  import opened Dates
  import opened Sorting
  import opened Domain

  const NotFoundMessage := "entrada no encontrada"

  /** `ORDER BY fecha_entrada DESC`. */
  predicate ByFechaDesc(a: EntradaProducto, b: EntradaProducto) {
    InstantLe(b.fechaEntrada, a.fechaEntrada)
  }

  /** `ORDER BY fecha_creacion DESC`. */
  predicate ByCreacionDesc(a: EntradaProducto, b: EntradaProducto) {
    b.fechaCreacion <= a.fechaCreacion
  }

  lemma ByFechaDescTotal()
    ensures Total(ByFechaDesc)
  {
    forall a: EntradaProducto, b: EntradaProducto ensures ByFechaDesc(a, b) || ByFechaDesc(b, a) {
      InstantLeTotal(a.fechaEntrada, b.fechaEntrada);
    }
  }

  /** Every receipt, latest receipt date first. */
  function GetAll(entradas: seq<EntradaProducto>): (r: seq<EntradaProducto>)
    ensures multiset(r) == multiset(entradas)
    ensures Sorted(r, ByFechaDesc)
  {
    ByFechaDescTotal();
    SortBySorted(entradas, ByFechaDesc);
    SortBy(entradas, ByFechaDesc)
  }

  /** The receipt with that id, or "entrada no encontrada". */
  function GetByID(entradas: seq<EntradaProducto>, id: int): (r: Result<EntradaProducto, RepoError>)
    ensures r.Ok? <==> exists i :: 0 <= i < |entradas| && entradas[i].id == id
    ensures r.Ok? ==> r.value in entradas && r.value.id == id
    ensures r.Err? ==> r.error == NotFound(NotFoundMessage)
  {
    if entradas == [] then Err(NotFound(NotFoundMessage))
    else if entradas[0].id == id then Ok(entradas[0])
    else
      var r := GetByID(entradas[1..], id);
      assert (exists i :: 0 <= i < |entradas| && entradas[i].id == id)
        <==> (exists i :: 0 <= i < |entradas| - 1 && entradas[1..][i].id == id) by {
        if i :| 0 <= i < |entradas| && entradas[i].id == id {
          assert entradas[1..][i - 1].id == id;
        }
      }
      r
  }

  /** `WHERE id_producto = productoID ORDER BY fecha_entrada DESC`. */
  function GetByProductoID(entradas: seq<EntradaProducto>, productoID: int): (r: seq<EntradaProducto>)
    ensures forall e :: e in r <==> e in entradas && e.idProducto == productoID
    ensures forall e :: multiset(r)[e] == if e.idProducto == productoID then multiset(entradas)[e] else 0
    ensures Sorted(r, ByFechaDesc)
  {
    ByFechaDescTotal();
    SelectOrdered(entradas, (e: EntradaProducto) => e.idProducto == productoID, ByFechaDesc);
    SortBy(Filter(entradas, (e: EntradaProducto) => e.idProducto == productoID), ByFechaDesc)
  }

  /** `WHERE fecha_entrada = fecha ORDER BY fecha_creacion DESC`. */
  function GetByFecha(entradas: seq<EntradaProducto>, fecha: CalendarDate): (r: seq<EntradaProducto>)
    ensures forall e :: e in r <==> e in entradas && e.fechaEntrada.date == fecha
    ensures forall e :: multiset(r)[e] == if e.fechaEntrada.date == fecha then multiset(entradas)[e] else 0
    ensures Sorted(r, ByCreacionDesc)
  {
    SelectOrdered(entradas, (e: EntradaProducto) => e.fechaEntrada.date == fecha, ByCreacionDesc);
    SortBy(Filter(entradas, (e: EntradaProducto) => e.fechaEntrada.date == fecha), ByCreacionDesc)
  }

  /** The receipts log with its id sequence. The repository offers no update and no delete. */
  class EntradaRepository {
    var entradas: seq<EntradaProducto>
    var nextId: int

    /** Ids are positive, below the sequence and increasing along the log; every stored
        receipt date is a calendar day (midnight). */
    ghost predicate Valid()
      reads this
    {
      && nextId >= 1
      && (forall i :: 0 <= i < |entradas| ==> 0 < entradas[i].id < nextId && entradas[i].fechaEntrada.nanos == 0)
      && (forall i, j :: 0 <= i < j < |entradas| ==> entradas[i].id < entradas[j].id)
    }

    constructor ()
      ensures Valid() && entradas == [] && nextId == 1
    {
      entradas := [];
      nextId := 1;
    }

    /** INSERT: the receipt date is reduced to its calendar day by formatting and re-parsing
        it, then the row is appended under a fresh id, stamped `now`. The stored row is
        what the caller's record becomes. Nothing but this log changes. */
    method Create(e: EntradaProducto, now: nat, fails: bool) returns (r: Result<EntradaProducto, RepoError>)
      requires Valid()
      modifies this
      ensures Valid()
      ensures old(entradas) <= entradas
      ensures r.Ok? <==> 0 <= e.fechaEntrada.date.year <= 9999 && !fails
      ensures !(0 <= e.fechaEntrada.date.year <= 9999) ==> r == Err(TimeParseError)
      ensures 0 <= e.fechaEntrada.date.year <= 9999 && fails ==> r == Err(DatabaseError)
      ensures r.Err? ==> unchanged(this)
      ensures r.Ok? ==> r.value == e.(id := old(nextId), fechaEntrada := Instant(e.fechaEntrada.date, 0),
                                      fechaCreacion := now, fechaActualizacion := now)
      ensures r.Ok? ==> forall i :: 0 <= i < |old(entradas)| ==> old(entradas)[i].id != r.value.id
      ensures r.Ok? ==> entradas == old(entradas) + [r.value]
    {
      ParseFormatDate(e.fechaEntrada.date);
      var fecha := ParseDate(FormatDate(e.fechaEntrada.date));
      if fecha.None? {
        return Err(TimeParseError);
      }
      if fails {
        return Err(DatabaseError);
      }
      var stored := e.(id := nextId, fechaEntrada := Instant(fecha.value, 0),
                       fechaCreacion := now, fechaActualizacion := now);
      entradas := entradas + [stored];
      nextId := nextId + 1;
      r := Ok(stored);
    }
  }
}
