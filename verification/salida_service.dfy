/** The withdrawal service: registering a stock withdrawal (checks, log append, stock
    decrement) and the guarded queries over the withdrawals log. */
module SalidaService {
  import opened Wrappers
  import opened Text
  import opened Dates
  import opened Sorting
  import opened Domain
  import Productos
  import Salidas

  datatype CreateSalidaRequest = CreateSalidaRequest(
    idProducto: int,
    fechaSalida: string,
    cantidad: int,
    observaciones: string,
    usuarioRegistro: string)

  /** The request passes the checks made before any lookup: a positive product id, a positive
      quantity and a user name that is not blank. */
  predicate WellFormed(request: CreateSalidaRequest) {
    request.idProducto > 0 && request.cantidad > 0 && !IsBlank(request.usuarioRegistro)
  }

  /** The request passes every check: well formed, the product exists and holds at least the
      quantity, and the date is a valid YYYY-MM-DD date. */
  predicate Admissible(request: CreateSalidaRequest, productos: map<int, Producto>) {
    && WellFormed(request)
    && request.idProducto in productos
    && productos[request.idProducto].stockActual >= request.cantidad
    && ParseDate(request.fechaSalida).Some?
  }

  /** The withdrawal stored for an admissible request under log id `id` at time `now`: the
      request's product and quantity, its date at midnight, notes and user trimmed. */
  function Stored(request: CreateSalidaRequest, id: int, now: nat): (s: SalidaProducto)
    requires ParseDate(request.fechaSalida).Some?
    ensures s.id == id && s.idProducto == request.idProducto && s.cantidad == request.cantidad
    ensures FormatDate(s.fechaSalida.date) == request.fechaSalida && s.fechaSalida.nanos == 0
    ensures !IsBlank(request.usuarioRegistro) ==> s.usuarioRegistro != ""
    ensures s.observaciones == TrimSpace(request.observaciones) && s.usuarioRegistro == TrimSpace(request.usuarioRegistro)
    ensures s.fechaCreacion == now && s.fechaActualizacion == now
  {
    FormatParseDate(request.fechaSalida);
    SalidaProducto(id, request.idProducto, Instant(ParseDate(request.fechaSalida).value, 0),
                   request.cantidad, TrimSpace(request.observaciones),
                   TrimSpace(request.usuarioRegistro), now, now)
  }

  /** A fully applied withdrawal `s`: the product had at least `s.cantidad` in stock, `s` was
      appended to the log, and the product's stock dropped by exactly `s.cantidad` with every
      other product and field as before. */
  ghost predicate Applied(productos0: map<int, Producto>, salidas0: seq<SalidaProducto>,
                          productos1: map<int, Producto>, salidas1: seq<SalidaProducto>,
                          s: SalidaProducto)
  {
    && s.idProducto in productos0
    && 0 < s.cantidad <= productos0[s.idProducto].stockActual
    && salidas1 == salidas0 + [s]
    && productos1 == productos0[s.idProducto := productos0[s.idProducto].(
         stockActual := productos0[s.idProducto].stockActual - s.cantidad)]
  }

  /** Introduces `Applied` from the written row, outside the heap context of a method. */
  lemma AppliedOf(productos0: map<int, Producto>, salidas0: seq<SalidaProducto>,
                  productos1: map<int, Producto>, salidas1: seq<SalidaProducto>,
                  s: SalidaProducto, row: Producto)
    requires s.idProducto in productos0 && 0 < s.cantidad <= productos0[s.idProducto].stockActual
    requires salidas1 == salidas0 + [s]
    requires row == productos0[s.idProducto].(stockActual := productos0[s.idProducto].stockActual - s.cantidad)
    requires productos1 == productos0[s.idProducto := row]
    ensures Applied(productos0, salidas0, productos1, salidas1, s)
  {
  }

  /** A half-applied withdrawal: `s` is in the log, the stock was never written. */
  ghost predicate LoggedOnly(productos0: map<int, Producto>, salidas0: seq<SalidaProducto>,
                             productos1: map<int, Producto>, salidas1: seq<SalidaProducto>,
                             s: SalidaProducto)
  {
    s.idProducto in productos0 && 0 < s.cantidad && salidas1 == salidas0 + [s] && productos1 == productos0
  }

  /** Introduces `LoggedOnly` outside the heap context of a method. */
  lemma LoggedOnlyOf(productos0: map<int, Producto>, salidas0: seq<SalidaProducto>,
                     productos1: map<int, Producto>, salidas1: seq<SalidaProducto>, s: SalidaProducto)
    requires s.idProducto in productos0 && 0 < s.cantidad && salidas1 == salidas0 + [s] && productos1 == productos0
    ensures LoggedOnly(productos0, salidas0, productos1, salidas1, s)
  {
  }

  /** The first check the request fails against the products table, in the source's order:
      product id, quantity, user, product lookup, stock, date. */
  function Rejection(request: CreateSalidaRequest, productos: map<int, Producto>): (e: Option<ServiceError>)
    ensures e == Some(InvalidProductoId) <==> request.idProducto <= 0
    ensures e == Some(InvalidCantidad) <==> request.idProducto > 0 && request.cantidad <= 0
    ensures e == Some(UsuarioRequerido)
      <==> request.idProducto > 0 && request.cantidad > 0 && IsBlank(request.usuarioRegistro)
    ensures e == Some(ProductoNoEncontrado) <==> WellFormed(request) && request.idProducto !in productos
    ensures e == Some(StockInsuficiente)
      <==> WellFormed(request) && request.idProducto in productos
           && productos[request.idProducto].stockActual < request.cantidad
    ensures e == Some(FechaInvalida)
      <==> WellFormed(request) && request.idProducto in productos
           && productos[request.idProducto].stockActual >= request.cantidad
           && ParseDate(request.fechaSalida).None?
    ensures e.None? <==> Admissible(request, productos)
  {
    if request.idProducto <= 0 then Some(InvalidProductoId)
    else if request.cantidad <= 0 then Some(InvalidCantidad)
    else if IsBlank(request.usuarioRegistro) then Some(UsuarioRequerido)
    else if request.idProducto !in productos then Some(ProductoNoEncontrado)
    else if productos[request.idProducto].stockActual < request.cantidad then Some(StockInsuficiente)
    else if ParseDate(request.fechaSalida).None? then Some(FechaInvalida)
    else None
  }

  /** Registers a withdrawal. A request the checks refuse leaves both tables as they were;
      otherwise the withdrawal is appended and the product written back with its stock
      reduced. The two writes are separate: `appendFails` and `updateFails` stand for the
      database refusing either one, and a refused stock write leaves the withdrawal logged
      without its stock effect. */
  method Create(salidaRepo: Salidas.SalidaRepository, productoRepo: Productos.ProductoRepository,
                request: CreateSalidaRequest, now: nat, appendFails: bool, updateFails: bool)
    returns (r: Result<SalidaProducto, ServiceError>)
    requires salidaRepo.Valid() && productoRepo.Valid()
    modifies salidaRepo, productoRepo
    ensures salidaRepo.Valid() && productoRepo.Valid()
    ensures Rejection(request, old(productoRepo.productos)).Some? ==>
      && r == Err(Rejection(request, old(productoRepo.productos)).value)
      && unchanged(salidaRepo) && unchanged(productoRepo)
    ensures Admissible(request, old(productoRepo.productos)) && appendFails ==>
      r == Err(CreateSalidaFailed) && unchanged(salidaRepo) && unchanged(productoRepo)
    ensures Admissible(request, old(productoRepo.productos)) && !appendFails && updateFails ==>
      && r == Err(StockUpdateFailed)
      && LoggedOnly(old(productoRepo.productos), old(salidaRepo.salidas), productoRepo.productos,
                    salidaRepo.salidas, Stored(request, old(salidaRepo.nextId), now))
    ensures Admissible(request, old(productoRepo.productos)) && !appendFails && !updateFails ==>
      && r == Ok(Stored(request, old(salidaRepo.nextId), now))
      && Applied(old(productoRepo.productos), old(salidaRepo.salidas),
                 productoRepo.productos, salidaRepo.salidas, r.value)
  {
    if request.idProducto <= 0 {
      return Err(InvalidProductoId);
    }
    if request.cantidad <= 0 {
      return Err(InvalidCantidad);
    }
    if IsBlank(request.usuarioRegistro) {
      return Err(UsuarioRequerido);
    }
    var found := Productos.GetByID(productoRepo.productos, request.idProducto);
    if found.Err? {
      return Err(ProductoNoEncontrado);
    }
    var producto := found.value;
    if producto.stockActual < request.cantidad {
      return Err(StockInsuficiente);
    }
    var fecha := ParseDate(request.fechaSalida);
    if fecha.None? {
      return Err(FechaInvalida);
    }
    r := Record(salidaRepo, productoRepo, request, producto, fecha.value, now, appendFails, updateFails);
  }

  /** The two writes of an admitted withdrawal, each of which the database may refuse: the
      withdrawal is appended to the log, then `producto`, the row read by the checks, is
      written back with its stock lowered by the quantity. */
  method Record(salidaRepo: Salidas.SalidaRepository, productoRepo: Productos.ProductoRepository,
                request: CreateSalidaRequest, producto: Producto, fecha: CalendarDate, now: nat,
                appendFails: bool, updateFails: bool)
    returns (r: Result<SalidaProducto, ServiceError>)
    requires salidaRepo.Valid() && productoRepo.Valid()
    requires Admissible(request, productoRepo.productos)
    requires producto == productoRepo.productos[request.idProducto]
    requires ParseDate(request.fechaSalida) == Some(fecha)
    modifies salidaRepo, productoRepo
    ensures salidaRepo.Valid() && productoRepo.Valid()
    ensures appendFails ==> r == Err(CreateSalidaFailed) && unchanged(salidaRepo) && unchanged(productoRepo)
    ensures !appendFails && updateFails ==>
      && r == Err(StockUpdateFailed)
      && LoggedOnly(old(productoRepo.productos), old(salidaRepo.salidas), productoRepo.productos,
                    salidaRepo.salidas, Stored(request, old(salidaRepo.nextId), now))
    ensures !appendFails && !updateFails ==>
      && r == Ok(Stored(request, old(salidaRepo.nextId), now))
      && Applied(old(productoRepo.productos), old(salidaRepo.salidas),
                 productoRepo.productos, salidaRepo.salidas, r.value)
  {
    var salida := SalidaProducto(0, request.idProducto, Instant(fecha, 0), request.cantidad,
                                 TrimSpace(request.observaciones),
                                 TrimSpace(request.usuarioRegistro), 0, 0);
    var created := salidaRepo.Create(salida, now, appendFails);
    if created.Err? {
      return Err(CreateSalidaFailed);
    }
    var updatedRow := producto.(stockActual := producto.stockActual - request.cantidad);
    var updated := productoRepo.Update(updatedRow, updateFails);
    if updated.Err? {
      LoggedOnlyOf(old(productoRepo.productos), old(salidaRepo.salidas), productoRepo.productos,
                   salidaRepo.salidas, created.value);
      return Err(StockUpdateFailed);
    }
    AppliedOf(old(productoRepo.productos), old(salidaRepo.salidas), productoRepo.productos,
              salidaRepo.salidas, created.value, updatedRow);
    r := Ok(created.value);
  }

  /** The withdrawal with that id; ids below 1 are refused before the lookup. */
  function GetByID(salidaRepo: Salidas.SalidaRepository, id: int): (r: Result<SalidaProducto, ServiceError>)
    reads salidaRepo
    ensures r == Err(InvalidSalidaId) <==> id <= 0
    ensures r.Ok? <==> id > 0 && exists i :: 0 <= i < |salidaRepo.salidas| && salidaRepo.salidas[i].id == id
    ensures r.Ok? ==> r.value in salidaRepo.salidas && r.value.id == id
    ensures id > 0 && r.Err? ==> r.error == Repo(NotFound(Salidas.NotFoundMessage))
  {
    if id <= 0 then Err(InvalidSalidaId)
    else
      match Salidas.GetByID(salidaRepo.salidas, id)
      case Ok(s) => Ok(s)
      case Err(e) => Err(Repo(e))
  }

  /** The withdrawals of one product, latest first; the id must be positive and the product
      must exist. */
  function GetByProductoID(salidaRepo: Salidas.SalidaRepository, productoRepo: Productos.ProductoRepository,
                           productoID: int): (r: Result<seq<SalidaProducto>, ServiceError>)
    reads salidaRepo, productoRepo
    ensures r == Err(InvalidProductoId) <==> productoID <= 0
    ensures r == Err(ProductoNoEncontrado) <==> productoID > 0 && productoID !in productoRepo.productos
    ensures r.Ok? <==> productoID > 0 && productoID in productoRepo.productos
    ensures r.Ok? ==> forall s :: s in r.value <==> s in salidaRepo.salidas && s.idProducto == productoID
    ensures r.Ok? ==> forall s :: multiset(r.value)[s] == if s.idProducto == productoID then multiset(salidaRepo.salidas)[s] else 0
    ensures r.Ok? ==> Sorted(r.value, Salidas.ByFechaDesc)
  {
    if productoID <= 0 then Err(InvalidProductoId)
    else if Productos.GetByID(productoRepo.productos, productoID).Err? then Err(ProductoNoEncontrado)
    else Ok(Salidas.GetByProductoID(salidaRepo.salidas, productoID))
  }

  /** The withdrawals dated `fecha`, most recently registered first; a string that is not a
      YYYY-MM-DD date is refused before the query. */
  function GetByFecha(salidaRepo: Salidas.SalidaRepository, fecha: string): (r: Result<seq<SalidaProducto>, ServiceError>)
    reads salidaRepo
    ensures r.Err? <==> ParseDate(fecha).None?
    ensures r.Err? ==> r.error == FechaInvalida
    ensures r.Ok? ==> forall s :: s in r.value <==> s in salidaRepo.salidas && s.fechaSalida.date == ParseDate(fecha).value
    ensures r.Ok? ==> forall s :: multiset(r.value)[s]
                                 == if s.fechaSalida.date == ParseDate(fecha).value then multiset(salidaRepo.salidas)[s] else 0
    ensures r.Ok? ==> Sorted(r.value, Salidas.ByCreacionDesc)
  {
    match ParseDate(fecha)
    case None => Err(FechaInvalida)
    case Some(d) => Ok(Salidas.GetByFecha(salidaRepo.salidas, d))
  }
}
