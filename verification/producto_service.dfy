/** The product service: the checks around creating, updating and deleting a product, the
    guarded lookup by id and the low-stock listing with its default threshold. */
module ProductoService {
  import opened Wrappers
  import opened Text
  import opened Sorting
  import opened Domain
  import Productos

  /** The body of a create or update request. */
  datatype ProductoRequest = ProductoRequest(
    codigo: string,
    nombre: string,
    idCategoria: Option<int>,
    unidadMedida: string,
    precioUnitario: real,
    stockActual: int,
    stockInicial: int)

  const DefaultUnidad := "UNIDAD"
  const DefaultLimite := 5

  /** The unit of measure stored for a requested one: an empty unit becomes "UNIDAD". */
  function Unidad(unidadMedida: string): (u: string)
    ensures u != ""
    ensures unidadMedida != "" ==> u == unidadMedida
    ensures unidadMedida == "" ==> u == "UNIDAD"
  {
    if unidadMedida == "" then DefaultUnidad else unidadMedida
  }

  /** The category is only looked up when one is given and it is positive; then it must be one
      of the existing categories. */
  predicate CategoriaValida(idCategoria: Option<int>, categorias: set<int>) {
    idCategoria.None? || idCategoria.value <= 0 || idCategoria.value in categorias
  }

  /** The data columns a request sets on a row: trimmed code and name, category, unit (with its
      default), price and both stock figures; id and timestamps are those of `row`. */
  function Apply(row: Producto, request: ProductoRequest): (p: Producto)
    ensures p.id == row.id && p.fechaCreacion == row.fechaCreacion
    ensures p.fechaActualizacion == row.fechaActualizacion
    ensures p.codigo == TrimSpace(request.codigo) && p.nombre == TrimSpace(request.nombre)
    ensures p.unidadMedida != ""
    ensures p.unidadMedida == (if request.unidadMedida == "" then DefaultUnidad else request.unidadMedida)
    ensures p.idCategoria == request.idCategoria && p.precioUnitario == request.precioUnitario
    ensures p.stockActual == request.stockActual && p.stockInicial == request.stockInicial
  {
    row.(codigo := TrimSpace(request.codigo), nombre := TrimSpace(request.nombre),
         idCategoria := request.idCategoria, unidadMedida := Unidad(request.unidadMedida),
         precioUnitario := request.precioUnitario, stockActual := request.stockActual,
         stockInicial := request.stockInicial)
  }

  /** The row a successful create stores under id `id` at time `now`. */
  function NewProducto(request: ProductoRequest, id: int, now: nat): Producto {
    Apply(Producto(id, "", "", None, "", 0.0, 0, 0, now, now), request)
  }

  /** The first check a create request fails, in the source's order: code, name, category,
      code already in use. */
  function CreateRejection(request: ProductoRequest, productos: map<int, Producto>, categorias: set<int>)
    : (err: Option<ServiceError>)
    ensures err == Some(CodigoRequerido) <==> IsBlank(request.codigo)
    ensures err == Some(NombreRequerido) <==> !IsBlank(request.codigo) && IsBlank(request.nombre)
    ensures err == Some(CategoriaNoExiste)
      <==> !IsBlank(request.codigo) && !IsBlank(request.nombre) && !CategoriaValida(request.idCategoria, categorias)
    ensures err == Some(CodigoDuplicado)
      <==> !IsBlank(request.codigo) && !IsBlank(request.nombre) && CategoriaValida(request.idCategoria, categorias)
           && Productos.CodigoEnUso(productos, TrimSpace(request.codigo))
    ensures err.None?
      <==> !IsBlank(request.codigo) && !IsBlank(request.nombre) && CategoriaValida(request.idCategoria, categorias)
           && !Productos.CodigoEnUso(productos, TrimSpace(request.codigo))
  {
    if IsBlank(request.codigo) then Some(CodigoRequerido)
    else if IsBlank(request.nombre) then Some(NombreRequerido)
    else if !CategoriaValida(request.idCategoria, categorias) then Some(CategoriaNoExiste)
    else if Productos.GetByCodigo(productos, TrimSpace(request.codigo)).Ok? then Some(CodigoDuplicado)
    else None
  }

  /** Creates a product. A refused request changes nothing; an accepted one is inserted under a
      fresh id unless the database refuses the insert. Codes stay unique. */
  method Create(repo: Productos.ProductoRepository, request: ProductoRequest, categorias: set<int>,
                now: nat, fails: bool)
    returns (r: Result<Producto, ServiceError>)
    requires repo.Valid()
    modifies repo
    ensures repo.Valid()
    ensures CreateRejection(request, old(repo.productos), categorias).Some? ==>
      r == Err(CreateRejection(request, old(repo.productos), categorias).value) && unchanged(repo)
    ensures CreateRejection(request, old(repo.productos), categorias).None? && fails ==>
      r == Err(CreateProductoFailed) && unchanged(repo)
    ensures CreateRejection(request, old(repo.productos), categorias).None? && !fails ==>
      && r == Ok(NewProducto(request, old(repo.nextId), now))
      && r.value.id !in old(repo.productos)
      && repo.productos == old(repo.productos)[r.value.id := r.value]
    ensures Productos.CodesUnique(old(repo.productos)) ==> Productos.CodesUnique(repo.productos)
  {
    if IsBlank(request.codigo) {
      return Err(CodigoRequerido);
    }
    if IsBlank(request.nombre) {
      return Err(NombreRequerido);
    }
    if request.idCategoria.Some? && request.idCategoria.value > 0 && request.idCategoria.value !in categorias {
      return Err(CategoriaNoExiste);
    }
    var existing := Productos.GetByCodigo(repo.productos, TrimSpace(request.codigo));
    if existing.Ok? {
      return Err(CodigoDuplicado);
    }
    var producto := NewProducto(request, 0, 0);
    if Productos.CodesUnique(repo.productos) {
      Productos.PutKeepsCodesUnique(repo.productos, repo.nextId, NewProducto(request, repo.nextId, now));
    }
    var created := repo.Create(producto, now, fails);
    if created.Err? {
      return Err(CreateProductoFailed);
    }
    r := Ok(created.value);
  }

  /** The first check an update request for product `id` fails, in the source's order: id,
      code, name, product lookup, category, code used by another product. */
  function UpdateRejection(id: int, request: ProductoRequest, productos: map<int, Producto>, categorias: set<int>)
    : (err: Option<ServiceError>)
    ensures err == Some(InvalidProductoId) <==> id <= 0
    ensures err == Some(CodigoRequerido) <==> id > 0 && IsBlank(request.codigo)
    ensures err == Some(NombreRequerido) <==> id > 0 && !IsBlank(request.codigo) && IsBlank(request.nombre)
    ensures err == Some(ProductoNoEncontrado)
      <==> id > 0 && !IsBlank(request.codigo) && !IsBlank(request.nombre) && id !in productos
    ensures err == Some(CategoriaNoExiste)
      <==> id > 0 && !IsBlank(request.codigo) && !IsBlank(request.nombre) && id in productos
           && !CategoriaValida(request.idCategoria, categorias)
    ensures err.None? ==>
      && id > 0 && !IsBlank(request.codigo) && !IsBlank(request.nombre) && id in productos
      && CategoriaValida(request.idCategoria, categorias)
  {
    if id <= 0 then Some(InvalidProductoId)
    else if IsBlank(request.codigo) then Some(CodigoRequerido)
    else if IsBlank(request.nombre) then Some(NombreRequerido)
    else if id !in productos then Some(ProductoNoEncontrado)
    else if !CategoriaValida(request.idCategoria, categorias) then Some(CategoriaNoExiste)
    else
      var other := Productos.GetByCodigo(productos, TrimSpace(request.codigo));
      if other.Ok? && other.value.id != id then Some(CodigoDuplicadoOtro)
      else None
  }

  /** In a table whose codes are unique and whose rows carry their own key, the duplicate-code
      check of an update refuses exactly the codes some other product already holds. */
  lemma UpdateDuplicateMeansOther(id: int, request: ProductoRequest, productos: map<int, Producto>,
                                  categorias: set<int>)
    requires Productos.CodesUnique(productos)
    requires forall k :: k in productos ==> productos[k].id == k
    requires id > 0 && !IsBlank(request.codigo) && !IsBlank(request.nombre) && id in productos
    requires CategoriaValida(request.idCategoria, categorias)
    ensures UpdateRejection(id, request, productos, categorias) == Some(CodigoDuplicadoOtro)
      <==> exists k :: k in productos && k != id && productos[k].codigo == TrimSpace(request.codigo)
    ensures UpdateRejection(id, request, productos, categorias).None?
      <==> forall k :: k in productos && productos[k].codigo == TrimSpace(request.codigo) ==> k == id
  {
    var codigo := TrimSpace(request.codigo);
    if k :| k in productos && productos[k].codigo == codigo {
      Productos.GetByCodigoUnique(productos, k);
    }
  }

  /** Updates product `id`. A refused request changes nothing; an accepted one rewrites the
      row's data columns from the request unless the database refuses the write. Codes stay
      unique. */
  method Update(repo: Productos.ProductoRepository, id: int, request: ProductoRequest, categorias: set<int>,
                fails: bool)
    returns (r: Result<Producto, ServiceError>)
    requires repo.Valid()
    modifies repo
    ensures repo.Valid()
    ensures UpdateRejection(id, request, old(repo.productos), categorias).Some? ==>
      r == Err(UpdateRejection(id, request, old(repo.productos), categorias).value) && unchanged(repo)
    ensures UpdateRejection(id, request, old(repo.productos), categorias).None? && fails ==>
      r == Err(UpdateProductoFailed) && unchanged(repo)
    ensures UpdateRejection(id, request, old(repo.productos), categorias).None? && !fails ==>
      && r == Ok(Apply(old(repo.productos)[id], request))
      && repo.productos == old(repo.productos)[id := r.value]
    ensures Productos.CodesUnique(old(repo.productos)) ==> Productos.CodesUnique(repo.productos)
  {
    if id <= 0 {
      return Err(InvalidProductoId);
    }
    if IsBlank(request.codigo) {
      return Err(CodigoRequerido);
    }
    if IsBlank(request.nombre) {
      return Err(NombreRequerido);
    }
    var found := Productos.GetByID(repo.productos, id);
    if found.Err? {
      return Err(ProductoNoEncontrado);
    }
    if request.idCategoria.Some? && request.idCategoria.value > 0 && request.idCategoria.value !in categorias {
      return Err(CategoriaNoExiste);
    }
    var other := Productos.GetByCodigo(repo.productos, TrimSpace(request.codigo));
    if other.Ok? && other.value.id != id {
      return Err(CodigoDuplicadoOtro);
    }
    var producto := Apply(found.value, request);
    if Productos.CodesUnique(repo.productos) {
      UpdateDuplicateMeansOther(id, request, repo.productos, categorias);
      Productos.PutKeepsCodesUnique(repo.productos, id, producto);
    }
    assert Productos.Assign(found.value, producto) == producto;
    var updated := repo.Update(producto, fails);
    if updated.Err? {
      return Err(UpdateProductoFailed);
    }
    r := Ok(updated.value);
  }

  /** Deletes product `id`: the id must be positive and the product must exist; the database
      may still refuse the delete. Nothing else changes. */
  method Delete(repo: Productos.ProductoRepository, id: int, fails: bool) returns (r: Result<(), ServiceError>)
    requires repo.Valid()
    modifies repo
    ensures repo.Valid()
    ensures r == Err(InvalidProductoId) <==> id <= 0
    ensures r == Err(ProductoNoEncontrado) <==> id > 0 && id !in old(repo.productos)
    ensures r == Err(DeleteProductoFailed) <==> id > 0 && id in old(repo.productos) && fails
    ensures r.Ok? <==> id > 0 && id in old(repo.productos) && !fails
    ensures r.Err? ==> unchanged(repo)
    ensures r.Ok? ==> repo.productos == old(repo.productos) - {id}
    ensures Productos.CodesUnique(old(repo.productos)) ==> Productos.CodesUnique(repo.productos)
  {
    if id <= 0 {
      return Err(InvalidProductoId);
    }
    var found := Productos.GetByID(repo.productos, id);
    if found.Err? {
      return Err(ProductoNoEncontrado);
    }
    var deleted := repo.Delete(id, fails);
    if deleted.Err? {
      return Err(DeleteProductoFailed);
    }
    r := Ok(());
  }

  /** The product with that id; ids below 1 are refused before the lookup. */
  function GetByID(repo: Productos.ProductoRepository, id: int): (r: Result<Producto, ServiceError>)
    reads repo
    ensures r == Err(InvalidProductoId) <==> id <= 0
    ensures r.Ok? <==> id > 0 && id in repo.productos
    ensures r.Ok? ==> r.value == repo.productos[id]
    ensures id > 0 && r.Err? ==> r.error == Repo(NotFound(Productos.NotFoundMessage))
  {
    if id <= 0 then Err(InvalidProductoId)
    else
      match Productos.GetByID(repo.productos, id)
      case Ok(p) => Ok(p)
      case Err(e) => Err(Repo(e))
  }

  /** The threshold actually queried: a negative one is replaced by 5. */
  function EffectiveLimite(limite: int): (l: int)
    ensures l >= 0
    ensures limite >= 0 ==> l == limite
    ensures limite < 0 ==> l == DefaultLimite
  {
    if limite < 0 then DefaultLimite else limite
  }

  /** The products at or below the threshold (5 when a negative one is given), lowest stock
      first. */
  function GetStockBajo(repo: Productos.ProductoRepository, limite: int): (r: seq<Producto>)
    reads repo
    ensures forall p :: p in r <==> p in repo.productos.Values && p.stockActual <= EffectiveLimite(limite)
    ensures limite < 0 ==> forall p :: p in r <==> p in repo.productos.Values && p.stockActual <= 5
    ensures forall p :: multiset(r)[p]
                        == if p.stockActual <= EffectiveLimite(limite) then multiset(Productos.Rows(repo.productos))[p] else 0
    ensures (forall k :: k in repo.productos ==> repo.productos[k].id == k)
            ==> forall p :: multiset(r)[p]
                            == if p in repo.productos.Values && p.stockActual <= EffectiveLimite(limite) then 1 else 0
    ensures Sorted(r, Productos.ByStock)
  {
    Productos.RowsOnce(repo.productos);
    Productos.GetStockBajo(repo.productos, EffectiveLimite(limite))
  }
}
