/** The stock withdrawals log (`salidas_productos`) and its repository: an append-only table
    with listing, lookup by id, by product and by date. */
module Salidas {
  import opened Wrappers
  import opened Dates
  import opened Sorting
  import opened Domain

  const NotFoundMessage := "salida no encontrada"

  /** `ORDER BY fecha_salida DESC`. */
  predicate ByFechaDesc(a: SalidaProducto, b: SalidaProducto) {
    InstantLe(b.fechaSalida, a.fechaSalida)
  }

  /** `ORDER BY fecha_creacion DESC`. */
  predicate ByCreacionDesc(a: SalidaProducto, b: SalidaProducto) {
    b.fechaCreacion <= a.fechaCreacion
  }

  lemma ByFechaDescTotal()
    ensures Total(ByFechaDesc)
  {
    forall a: SalidaProducto, b: SalidaProducto ensures ByFechaDesc(a, b) || ByFechaDesc(b, a) {
      InstantLeTotal(a.fechaSalida, b.fechaSalida);
    }
  }

  /** Every withdrawal, latest withdrawal date first. */
  function GetAll(salidas: seq<SalidaProducto>): (r: seq<SalidaProducto>)
    ensures multiset(r) == multiset(salidas)
    ensures Sorted(r, ByFechaDesc)
  {
    ByFechaDescTotal();
    SortBySorted(salidas, ByFechaDesc);
    SortBy(salidas, ByFechaDesc)
  }

  /** The withdrawal with that id, or "salida no encontrada". */
  function GetByID(salidas: seq<SalidaProducto>, id: int): (r: Result<SalidaProducto, RepoError>)
    ensures r.Ok? <==> exists i :: 0 <= i < |salidas| && salidas[i].id == id
    ensures r.Ok? ==> r.value in salidas && r.value.id == id
    ensures r.Err? ==> r.error == NotFound(NotFoundMessage)
  {
    if salidas == [] then Err(NotFound(NotFoundMessage))
    else if salidas[0].id == id then Ok(salidas[0])
    else
      var r := GetByID(salidas[1..], id);
      assert (exists i :: 0 <= i < |salidas| && salidas[i].id == id)
        <==> (exists i :: 0 <= i < |salidas| - 1 && salidas[1..][i].id == id) by {
        if i :| 0 <= i < |salidas| && salidas[i].id == id {
          assert salidas[1..][i - 1].id == id;
        }
      }
      r
  }

  /** `WHERE id_producto = productoID ORDER BY fecha_salida DESC`. */
  function GetByProductoID(salidas: seq<SalidaProducto>, productoID: int): (r: seq<SalidaProducto>)
    ensures forall e :: e in r <==> e in salidas && e.idProducto == productoID
    ensures forall e :: multiset(r)[e] == if e.idProducto == productoID then multiset(salidas)[e] else 0
    ensures Sorted(r, ByFechaDesc)
  {
    ByFechaDescTotal();
    SelectOrdered(salidas, (e: SalidaProducto) => e.idProducto == productoID, ByFechaDesc);
    SortBy(Filter(salidas, (e: SalidaProducto) => e.idProducto == productoID), ByFechaDesc)
  }

  /** `WHERE fecha_salida = fecha ORDER BY fecha_creacion DESC`. */
  function GetByFecha(salidas: seq<SalidaProducto>, fecha: CalendarDate): (r: seq<SalidaProducto>)
    ensures forall e :: e in r <==> e in salidas && e.fechaSalida.date == fecha
    ensures forall e :: multiset(r)[e] == if e.fechaSalida.date == fecha then multiset(salidas)[e] else 0
    ensures Sorted(r, ByCreacionDesc)
  {
    SelectOrdered(salidas, (e: SalidaProducto) => e.fechaSalida.date == fecha, ByCreacionDesc);
    SortBy(Filter(salidas, (e: SalidaProducto) => e.fechaSalida.date == fecha), ByCreacionDesc)
  }

  /** The withdrawals log with its id sequence. The repository offers no update and no delete. */
  class SalidaRepository {
    var salidas: seq<SalidaProducto>
    var nextId: int

    /** Ids are positive, below the sequence and increasing along the log; every stored
        withdrawal date is a calendar day (midnight). */
    ghost predicate Valid()
      reads this
    {
      && nextId >= 1
      && (forall i :: 0 <= i < |salidas| ==> 0 < salidas[i].id < nextId && salidas[i].fechaSalida.nanos == 0)
      && (forall i, j :: 0 <= i < j < |salidas| ==> salidas[i].id < salidas[j].id)
    }

    constructor ()
      ensures Valid() && salidas == [] && nextId == 1
    {
      salidas := [];
      nextId := 1;
    }

    /** INSERT: the withdrawal date is reduced to its calendar day by formatting and re-parsing
        it, then the row is appended under a fresh id, stamped `now`. The stored row is
        what the caller's record becomes. Nothing but this log changes. */
    method Create(e: SalidaProducto, now: nat, fails: bool) returns (r: Result<SalidaProducto, RepoError>)
      requires Valid()
      modifies this
      ensures Valid()
      ensures old(salidas) <= salidas
      ensures r.Ok? <==> 0 <= e.fechaSalida.date.year <= 9999 && !fails
      ensures !(0 <= e.fechaSalida.date.year <= 9999) ==> r == Err(TimeParseError)
      ensures 0 <= e.fechaSalida.date.year <= 9999 && fails ==> r == Err(DatabaseError)
      ensures r.Err? ==> unchanged(this)
      ensures r.Ok? ==> r.value == e.(id := old(nextId), fechaSalida := Instant(e.fechaSalida.date, 0),
                                      fechaCreacion := now, fechaActualizacion := now)
      ensures r.Ok? ==> forall i :: 0 <= i < |old(salidas)| ==> old(salidas)[i].id != r.value.id
      ensures r.Ok? ==> salidas == old(salidas) + [r.value]
    {
      ParseFormatDate(e.fechaSalida.date);
      var fecha := ParseDate(FormatDate(e.fechaSalida.date));
      if fecha.None? {
        return Err(TimeParseError);
      }
      if fails {
        return Err(DatabaseError);
      }
      var stored := e.(id := nextId, fechaSalida := Instant(fecha.value, 0),
                       fechaCreacion := now, fechaActualizacion := now);
      salidas := salidas + [stored];
      nextId := nextId + 1;
      r := Ok(stored);
    }
  }
}
