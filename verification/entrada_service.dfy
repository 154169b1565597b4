/** The receipt service: registering a stock receipt (checks, log append, stock increment)
    and the guarded queries over the receipts log. */
module EntradaService {
  import opened Wrappers
  import opened Text
  import opened Dates
  import opened Sorting
  import opened Domain
  import Productos
  import Entradas

  datatype CreateEntradaRequest = CreateEntradaRequest(
    idProducto: int,
    fechaEntrada: string,
    cantidad: int,
    precioUnitario: Option<real>,
    observaciones: string,
    usuarioRegistro: string)

  /** The request passes the checks made before any lookup: a positive product id, a positive
      quantity and a user name that is not blank. */
  predicate WellFormed(request: CreateEntradaRequest) {
    request.idProducto > 0 && request.cantidad > 0 && !IsBlank(request.usuarioRegistro)
  }

  /** A price, when given, is not negative. */
  predicate PriceAcceptable(precio: Option<real>) {
    precio.None? || precio.value >= 0.0
  }

  /** The request passes every check: well formed, the product exists, the date is a valid
      YYYY-MM-DD date and the price, if any, is not negative. */
  predicate Admissible(request: CreateEntradaRequest, productos: map<int, Producto>) {
    && WellFormed(request)
    && request.idProducto in productos
    && ParseDate(request.fechaEntrada).Some?
    && PriceAcceptable(request.precioUnitario)
  }

  /** The receipt stored for an admissible request under log id `id` at time `now`: the
      request's product, quantity and price, its date at midnight, notes and user trimmed. */
  function Stored(request: CreateEntradaRequest, id: int, now: nat): (e: EntradaProducto)
    requires ParseDate(request.fechaEntrada).Some?
    ensures e.id == id && e.idProducto == request.idProducto && e.cantidad == request.cantidad && e.precioUnitario == request.precioUnitario
    ensures FormatDate(e.fechaEntrada.date) == request.fechaEntrada && e.fechaEntrada.nanos == 0
    ensures !IsBlank(request.usuarioRegistro) ==> e.usuarioRegistro != ""
    ensures e.observaciones == TrimSpace(request.observaciones) && e.usuarioRegistro == TrimSpace(request.usuarioRegistro)
    ensures e.fechaCreacion == now && e.fechaActualizacion == now
  {
    FormatParseDate(request.fechaEntrada);
    EntradaProducto(id, request.idProducto, Instant(ParseDate(request.fechaEntrada).value, 0),
                    request.cantidad, request.precioUnitario, TrimSpace(request.observaciones),
                    TrimSpace(request.usuarioRegistro), now, now)
  }

  /** A fully applied receipt `e`: the product existed, `e` was appended to the log, and the
      product's stock rose by exactly `e.cantidad` with every other product and field as
      before. */
  ghost predicate Applied(productos0: map<int, Producto>, entradas0: seq<EntradaProducto>,
                          productos1: map<int, Producto>, entradas1: seq<EntradaProducto>,
                          e: EntradaProducto)
  {
    && e.idProducto in productos0
    && 0 < e.cantidad
    && entradas1 == entradas0 + [e]
    && productos1 == productos0[e.idProducto := productos0[e.idProducto].(
         stockActual := productos0[e.idProducto].stockActual + e.cantidad)]
  }

  /** Introduces `Applied` from the written row, outside the heap context of a method. */
  lemma AppliedOf(productos0: map<int, Producto>, entradas0: seq<EntradaProducto>,
                  productos1: map<int, Producto>, entradas1: seq<EntradaProducto>,
                  e: EntradaProducto, row: Producto)
    requires e.idProducto in productos0 && 0 < e.cantidad && entradas1 == entradas0 + [e]
    requires row == productos0[e.idProducto].(stockActual := productos0[e.idProducto].stockActual + e.cantidad)
    requires productos1 == productos0[e.idProducto := row]
    ensures Applied(productos0, entradas0, productos1, entradas1, e)
  {
  }

  /** A half-applied receipt: `e` is in the log, the stock was never written. */
  ghost predicate LoggedOnly(productos0: map<int, Producto>, entradas0: seq<EntradaProducto>,
                             productos1: map<int, Producto>, entradas1: seq<EntradaProducto>,
                             e: EntradaProducto)
  {
    e.idProducto in productos0 && 0 < e.cantidad && entradas1 == entradas0 + [e] && productos1 == productos0
  }

  /** Introduces `LoggedOnly` outside the heap context of a method. */
  lemma LoggedOnlyOf(productos0: map<int, Producto>, entradas0: seq<EntradaProducto>,
                     productos1: map<int, Producto>, entradas1: seq<EntradaProducto>, e: EntradaProducto)
    requires e.idProducto in productos0 && 0 < e.cantidad && entradas1 == entradas0 + [e] && productos1 == productos0
    ensures LoggedOnly(productos0, entradas0, productos1, entradas1, e)
  {
  }

  /** The first check the request fails against the products table, in the source's order:
      product id, quantity, user, product lookup, date, price. */
  function Rejection(request: CreateEntradaRequest, productos: map<int, Producto>): (err: Option<ServiceError>)
    ensures err == Some(InvalidProductoId) <==> request.idProducto <= 0
    ensures err == Some(InvalidCantidad) <==> request.idProducto > 0 && request.cantidad <= 0
    ensures err == Some(UsuarioRequerido)
      <==> request.idProducto > 0 && request.cantidad > 0 && IsBlank(request.usuarioRegistro)
    ensures err == Some(ProductoNoEncontrado) <==> WellFormed(request) && request.idProducto !in productos
    ensures err == Some(FechaInvalida)
      <==> WellFormed(request) && request.idProducto in productos && ParseDate(request.fechaEntrada).None?
    ensures err == Some(PrecioNegativo)
      <==> WellFormed(request) && request.idProducto in productos && ParseDate(request.fechaEntrada).Some?
           && !PriceAcceptable(request.precioUnitario)
    ensures err.None? <==> Admissible(request, productos)
  {
    if request.idProducto <= 0 then Some(InvalidProductoId)
    else if request.cantidad <= 0 then Some(InvalidCantidad)
    else if IsBlank(request.usuarioRegistro) then Some(UsuarioRequerido)
    else if request.idProducto !in productos then Some(ProductoNoEncontrado)
    else if ParseDate(request.fechaEntrada).None? then Some(FechaInvalida)
    else if request.precioUnitario.Some? && request.precioUnitario.value < 0.0 then Some(PrecioNegativo)
    else None
  }

  /** Registers a receipt. A request the checks refuse leaves both tables as they were;
      otherwise the receipt is appended and the product written back with its stock
      increased. The two writes are separate: `appendFails` and `updateFails` stand for the
      database refusing either one, and a refused stock write leaves the receipt logged
      without its stock effect. */
  method Create(entradaRepo: Entradas.EntradaRepository, productoRepo: Productos.ProductoRepository,
                request: CreateEntradaRequest, now: nat, appendFails: bool, updateFails: bool)
    returns (r: Result<EntradaProducto, ServiceError>)
    requires entradaRepo.Valid() && productoRepo.Valid()
    modifies entradaRepo, productoRepo
    ensures entradaRepo.Valid() && productoRepo.Valid()
    ensures Rejection(request, old(productoRepo.productos)).Some? ==>
      && r == Err(Rejection(request, old(productoRepo.productos)).value)
      && unchanged(entradaRepo) && unchanged(productoRepo)
    ensures Admissible(request, old(productoRepo.productos)) && appendFails ==>
      r == Err(CreateEntradaFailed) && unchanged(entradaRepo) && unchanged(productoRepo)
    ensures Admissible(request, old(productoRepo.productos)) && !appendFails && updateFails ==>
      && r == Err(StockUpdateFailed)
      && LoggedOnly(old(productoRepo.productos), old(entradaRepo.entradas), productoRepo.productos,
                    entradaRepo.entradas, Stored(request, old(entradaRepo.nextId), now))
    ensures Admissible(request, old(productoRepo.productos)) && !appendFails && !updateFails ==>
      && r == Ok(Stored(request, old(entradaRepo.nextId), now))
      && Applied(old(productoRepo.productos), old(entradaRepo.entradas),
                 productoRepo.productos, entradaRepo.entradas, r.value)
  {
    if request.idProducto <= 0 {
      return Err(InvalidProductoId);
    }
    if request.cantidad <= 0 {
      return Err(InvalidCantidad);
    }
    if IsBlank(request.usuarioRegistro) {
      return Err(UsuarioRequerido);
    }
    var found := Productos.GetByID(productoRepo.productos, request.idProducto);
    if found.Err? {
      return Err(ProductoNoEncontrado);
    }
    var fecha := ParseDate(request.fechaEntrada);
    if fecha.None? {
      return Err(FechaInvalida);
    }
    if request.precioUnitario.Some? && request.precioUnitario.value < 0.0 {
      return Err(PrecioNegativo);
    }
    r := Record(entradaRepo, productoRepo, request, found.value, fecha.value, now, appendFails, updateFails);
  }

  /** The two writes of an admitted receipt, each of which the database may refuse: the
      receipt is appended to the log, then `producto`, the row read by the checks, is written
      back with its stock raised by the quantity. */
  method Record(entradaRepo: Entradas.EntradaRepository, productoRepo: Productos.ProductoRepository,
                request: CreateEntradaRequest, producto: Producto, fecha: CalendarDate, now: nat,
                appendFails: bool, updateFails: bool)
    returns (r: Result<EntradaProducto, ServiceError>)
    requires entradaRepo.Valid() && productoRepo.Valid()
    requires Admissible(request, productoRepo.productos)
    requires producto == productoRepo.productos[request.idProducto]
    requires ParseDate(request.fechaEntrada) == Some(fecha)
    modifies entradaRepo, productoRepo
    ensures entradaRepo.Valid() && productoRepo.Valid()
    ensures appendFails ==> r == Err(CreateEntradaFailed) && unchanged(entradaRepo) && unchanged(productoRepo)
    ensures !appendFails && updateFails ==>
      && r == Err(StockUpdateFailed)
      && LoggedOnly(old(productoRepo.productos), old(entradaRepo.entradas), productoRepo.productos,
                    entradaRepo.entradas, Stored(request, old(entradaRepo.nextId), now))
    ensures !appendFails && !updateFails ==>
      && r == Ok(Stored(request, old(entradaRepo.nextId), now))
      && Applied(old(productoRepo.productos), old(entradaRepo.entradas),
                 productoRepo.productos, entradaRepo.entradas, r.value)
  {
    var entrada := EntradaProducto(0, request.idProducto, Instant(fecha, 0), request.cantidad,
                                   request.precioUnitario, TrimSpace(request.observaciones),
                                   TrimSpace(request.usuarioRegistro), 0, 0);
    var created := entradaRepo.Create(entrada, now, appendFails);
    if created.Err? {
      return Err(CreateEntradaFailed);
    }
    var updatedRow := producto.(stockActual := producto.stockActual + request.cantidad);
    var updated := productoRepo.Update(updatedRow, updateFails);
    if updated.Err? {
      LoggedOnlyOf(old(productoRepo.productos), old(entradaRepo.entradas), productoRepo.productos,
                   entradaRepo.entradas, created.value);
      return Err(StockUpdateFailed);
    }
    AppliedOf(old(productoRepo.productos), old(entradaRepo.entradas), productoRepo.productos,
              entradaRepo.entradas, created.value, updatedRow);
    r := Ok(created.value);
  }

  /** The receipt with that id; ids below 1 are refused before the lookup. */
  function GetByID(entradaRepo: Entradas.EntradaRepository, id: int): (r: Result<EntradaProducto, ServiceError>)
    reads entradaRepo
    ensures r == Err(InvalidEntradaId) <==> id <= 0
    ensures r.Ok? <==> id > 0 && exists i :: 0 <= i < |entradaRepo.entradas| && entradaRepo.entradas[i].id == id
    ensures r.Ok? ==> r.value in entradaRepo.entradas && r.value.id == id
    ensures id > 0 && r.Err? ==> r.error == Repo(NotFound(Entradas.NotFoundMessage))
  {
    if id <= 0 then Err(InvalidEntradaId)
    else
      match Entradas.GetByID(entradaRepo.entradas, id)
      case Ok(e) => Ok(e)
      case Err(e) => Err(Repo(e))
  }

  /** The receipts of one product, latest first; the id must be positive and the product
      must exist. */
  function GetByProductoID(entradaRepo: Entradas.EntradaRepository, productoRepo: Productos.ProductoRepository,
                           productoID: int): (r: Result<seq<EntradaProducto>, ServiceError>)
    reads entradaRepo, productoRepo
    ensures r == Err(InvalidProductoId) <==> productoID <= 0
    ensures r == Err(ProductoNoEncontrado) <==> productoID > 0 && productoID !in productoRepo.productos
    ensures r.Ok? <==> productoID > 0 && productoID in productoRepo.productos
    ensures r.Ok? ==> forall e :: e in r.value <==> e in entradaRepo.entradas && e.idProducto == productoID
    ensures r.Ok? ==> forall e :: multiset(r.value)[e] == if e.idProducto == productoID then multiset(entradaRepo.entradas)[e] else 0
    ensures r.Ok? ==> Sorted(r.value, Entradas.ByFechaDesc)
  {
    if productoID <= 0 then Err(InvalidProductoId)
    else if Productos.GetByID(productoRepo.productos, productoID).Err? then Err(ProductoNoEncontrado)
    else Ok(Entradas.GetByProductoID(entradaRepo.entradas, productoID))
  }

  /** The receipts dated `fecha`, most recently registered first; a string that is not a
      YYYY-MM-DD date is refused before the query. */
  function GetByFecha(entradaRepo: Entradas.EntradaRepository, fecha: string): (r: Result<seq<EntradaProducto>, ServiceError>)
    reads entradaRepo
    ensures r.Err? <==> ParseDate(fecha).None?
    ensures r.Err? ==> r.error == FechaInvalida
    ensures r.Ok? ==> forall e :: e in r.value <==> e in entradaRepo.entradas && e.fechaEntrada.date == ParseDate(fecha).value
    ensures r.Ok? ==> forall e :: multiset(r.value)[e]
                                 == if e.fechaEntrada.date == ParseDate(fecha).value then multiset(entradaRepo.entradas)[e] else 0
    ensures r.Ok? ==> Sorted(r.value, Entradas.ByCreacionDesc)
  {
    match ParseDate(fecha)
    case None => Err(FechaInvalida)
    case Some(d) => Ok(Entradas.GetByFecha(entradaRepo.entradas, d))
  }
}
