/** The records of the inventory: products, stock receipts (entradas) and stock withdrawals
    (salidas), and the errors the repositories and services report. */
module Domain {
  import opened Wrappers
  import opened Dates

  /** A row of the products table. `precioUnitario` is a float64 in the source; only its
      value is carried here. Timestamps are database clock readings. */
  datatype Producto = Producto(
    id: int,
    codigo: string,
    nombre: string,
    idCategoria: Option<int>,
    unidadMedida: string,
    precioUnitario: real,
    stockActual: int,
    stockInicial: int,
    fechaCreacion: nat,
    fechaActualizacion: nat)

  /** A row of the stock receipts log; the unit price may be absent. */
  datatype EntradaProducto = EntradaProducto(
    id: int,
    idProducto: int,
    fechaEntrada: Instant,
    cantidad: int,
    precioUnitario: Option<real>,
    observaciones: string,
    usuarioRegistro: string,
    fechaCreacion: nat,
    fechaActualizacion: nat)

  /** A row of the stock withdrawals log. */
  datatype SalidaProducto = SalidaProducto(
    id: int,
    idProducto: int,
    fechaSalida: Instant,
    cantidad: int,
    observaciones: string,
    usuarioRegistro: string,
    fechaCreacion: nat,
    fechaActualizacion: nat)

  /** Errors of the repositories: a lookup or write that matched no row, a failure of the
      database itself (connection, constraint, aborted statement), and a date the time
      package cannot read back. */
  datatype RepoError = NotFound(message: string) | DatabaseError | TimeParseError

  /** The failures the services report, one per distinct message of the source. */
  datatype ServiceError =
    | InvalidProductoId
    | InvalidEntradaId
    | InvalidSalidaId
    | InvalidCantidad
    | UsuarioRequerido
    | ProductoNoEncontrado
    | StockInsuficiente
    | FechaInvalida
    | PrecioNegativo
    | CreateEntradaFailed
    | CreateSalidaFailed
    | StockUpdateFailed
    | CodigoRequerido
    | NombreRequerido
    | CategoriaNoExiste
    | CodigoDuplicado
    | CodigoDuplicadoOtro
    | CreateProductoFailed
    | UpdateProductoFailed
    | DeleteProductoFailed
    | Repo(cause: RepoError)
  {
    /** The text the service puts in its response: a repository's not-found message is passed
        through, and every failure of the service's own has a text. */
    function Message(): (m: string)
      ensures this.Repo? && this.cause.NotFound? ==> m == this.cause.message
      ensures !this.Repo? ==> m != ""
    {
      match this
      case InvalidProductoId => "ID de producto inválido"
      case InvalidEntradaId => "ID de entrada inválido"
      case InvalidSalidaId => "ID de salida inválido"
      case InvalidCantidad => "La cantidad debe ser mayor a 0"
      case UsuarioRequerido => "Usuario de registro es requerido"
      case ProductoNoEncontrado => "Producto no encontrado"
      case StockInsuficiente => "Stock insuficiente para realizar la salida"
      case FechaInvalida => "Formato de fecha inválido. Use YYYY-MM-DD"
      case PrecioNegativo => "El precio unitario no puede ser negativo"
      case CreateEntradaFailed => "Error al crear la entrada"
      case CreateSalidaFailed => "Error al crear la salida"
      case StockUpdateFailed => "Error al actualizar el stock del producto"
      case CodigoRequerido => "El código del producto es requerido"
      case NombreRequerido => "El nombre del producto es requerido"
      case CategoriaNoExiste => "La categoría especificada no existe"
      case CodigoDuplicado => "Ya existe un producto con ese código"
      case CodigoDuplicadoOtro => "Ya existe otro producto con ese código"
      case CreateProductoFailed => "Error al crear el producto"
      case UpdateProductoFailed => "Error al actualizar el producto"
      case DeleteProductoFailed => "Error al eliminar el producto"
      case Repo(cause) =>
        match cause
        case NotFound(m) => m
        case DatabaseError => "database error"
        case TimeParseError => "time parse error"
    }
  }
}
