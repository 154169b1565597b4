/** What the stock movements keep, taken together: for each product, the stock minus all its
    receipts plus all its withdrawals. Fully applied movements keep that figure and keep stock
    from going negative; a movement whose stock write was refused shifts it by its quantity.
    The source has no transaction, so only the first kind of history keeps the books. */
module Ledger {
  import opened Domain
  import opened Wrappers
  import Productos
  import Entradas
  import Salidas
  import EntradaService
  import SalidaService

  /** The three tables the movements touch. */
  datatype Books = Books(productos: map<int, Producto>, entradas: seq<EntradaProducto>, salidas: seq<SalidaProducto>)

  /** The sum of the quantities received for product `pid`. */
  function EntradasTotal(entradas: seq<EntradaProducto>, pid: int): int {
    if entradas == [] then 0
    else
      var last := entradas[|entradas| - 1];
      EntradasTotal(entradas[..|entradas| - 1], pid) + (if last.idProducto == pid then last.cantidad else 0)
  }

  /** The sum of the quantities withdrawn for product `pid`. */
  function SalidasTotal(salidas: seq<SalidaProducto>, pid: int): int {
    if salidas == [] then 0
    else
      var last := salidas[|salidas| - 1];
      SalidasTotal(salidas[..|salidas| - 1], pid) + (if last.idProducto == pid then last.cantidad else 0)
  }

  /** Appending a receipt adds its quantity to its own product's total and nothing to others'. */
  lemma EntradasTotalAppend(entradas: seq<EntradaProducto>, e: EntradaProducto, pid: int)
    ensures EntradasTotal(entradas + [e], pid)
         == EntradasTotal(entradas, pid) + (if e.idProducto == pid then e.cantidad else 0)
  {
    assert (entradas + [e])[..|entradas|] == entradas;
  }

  /** Appending a withdrawal adds its quantity to its own product's total and nothing to
      others'. */
  lemma SalidasTotalAppend(salidas: seq<SalidaProducto>, s: SalidaProducto, pid: int)
    ensures SalidasTotal(salidas + [s], pid)
         == SalidasTotal(salidas, pid) + (if s.idProducto == pid then s.cantidad else 0)
  {
    assert (salidas + [s])[..|salidas|] == salidas;
  }

  /** The figure fully applied movements keep for a product. */
  function Balance(books: Books, pid: int): int
    requires pid in books.productos
  {
    books.productos[pid].stockActual - EntradasTotal(books.entradas, pid) + SalidasTotal(books.salidas, pid)
  }

  /** No product has negative stock. */
  predicate StockNonNegative(books: Books) {
    forall pid :: pid in books.productos ==> books.productos[pid].stockActual >= 0
  }

  /** One registered movement. */
  datatype Movement = In(entrada: EntradaProducto) | Out(salida: SalidaProducto)

  /** `b1` is `b0` after `m` was fully applied, as the services' Create reports it on success;
      the other log is untouched. */
  ghost predicate Step(b0: Books, m: Movement, b1: Books) {
    match m
    case In(e) =>
      EntradaService.Applied(b0.productos, b0.entradas, b1.productos, b1.entradas, e) && b1.salidas == b0.salidas
    case Out(s) =>
      SalidaService.Applied(b0.productos, b0.salidas, b1.productos, b1.salidas, s) && b1.entradas == b0.entradas
  }

  /** `books` is the sequence of states a run of `moves` passes through, every move fully
      applied. */
  ghost predicate Run(books: seq<Books>, moves: seq<Movement>) {
    && |books| == |moves| + 1
    && forall i :: 0 <= i < |moves| ==> Step(books[i], moves[i], books[i + 1])
  }

  /** One fully applied movement keeps the set of products, every product's balance, and
      each product's stock non-negative if it was. */
  lemma StepKeepsBooks(b0: Books, m: Movement, b1: Books)
    requires Step(b0, m, b1)
    ensures b1.productos.Keys == b0.productos.Keys
    ensures forall pid :: pid in b0.productos ==> Balance(b1, pid) == Balance(b0, pid)
    ensures StockNonNegative(b0) ==> StockNonNegative(b1)
    ensures forall pid :: pid in b0.productos && b0.productos[pid].stockActual >= 0
                      ==> b1.productos[pid].stockActual >= 0
  {
    forall pid | pid in b0.productos ensures Balance(b1, pid) == Balance(b0, pid) {
      match m
      case In(e) =>
        EntradasTotalAppend(b0.entradas, e, pid);
      case Out(s) =>
        SalidasTotalAppend(b0.salidas, s, pid);
    }
  }

  /** Any run of fully applied receipts and withdrawals keeps every product, keeps each
      product's stock minus its receipts plus its withdrawals, and never drives a stock below
      zero that started at or above it. */
  lemma {:induction false} RunKeepsBooks(books: seq<Books>, moves: seq<Movement>)
    requires Run(books, moves)
    ensures books[|moves|].productos.Keys == books[0].productos.Keys
    ensures forall pid :: pid in books[0].productos ==> Balance(books[|moves|], pid) == Balance(books[0], pid)
    ensures StockNonNegative(books[0]) ==> StockNonNegative(books[|moves|])
    ensures forall pid :: pid in books[0].productos && books[0].productos[pid].stockActual >= 0
                      ==> books[|moves|].productos[pid].stockActual >= 0
  {
    if moves != [] {
      var n := |moves| - 1;
      assert Run(books[..n + 1], moves[..n]) by {
        forall i | 0 <= i < n ensures Step(books[..n + 1][i], moves[..n][i], books[..n + 1][i + 1]) {
          assert Step(books[i], moves[i], books[i + 1]);
        }
      }
      RunKeepsBooks(books[..n + 1], moves[..n]);
      assert Step(books[n], moves[n], books[n + 1]);
      StepKeepsBooks(books[n], moves[n], books[n + 1]);
    }
  }

  /** A withdrawal logged without its stock write raises the product's balance by its
      quantity: the books no longer hold. */
  lemma SalidaLoggedOnlyDrifts(b0: Books, s: SalidaProducto, b1: Books)
    requires SalidaService.LoggedOnly(b0.productos, b0.salidas, b1.productos, b1.salidas, s)
    requires b1.entradas == b0.entradas
    ensures Balance(b1, s.idProducto) == Balance(b0, s.idProducto) + s.cantidad
    ensures Balance(b1, s.idProducto) != Balance(b0, s.idProducto)
  {
    SalidasTotalAppend(b0.salidas, s, s.idProducto);
  }

  /** A receipt logged without its stock write lowers the product's balance by its quantity. */
  lemma EntradaLoggedOnlyDrifts(b0: Books, e: EntradaProducto, b1: Books)
    requires EntradaService.LoggedOnly(b0.productos, b0.entradas, b1.productos, b1.entradas, e)
    requires b1.salidas == b0.salidas
    ensures Balance(b1, e.idProducto) == Balance(b0, e.idProducto) - e.cantidad
    ensures Balance(b1, e.idProducto) != Balance(b0, e.idProducto)
  {
    EntradasTotalAppend(b0.entradas, e, e.idProducto);
  }

  /** An admitted withdrawal whose stock write the database refuses: the service reports the
      failure, the product table is as before, and the product's balance has moved up by the
      quantity, because the withdrawal stays in the log. */
  method WithdrawalWithRefusedStockWrite(salidaRepo: Salidas.SalidaRepository,
                                         productoRepo: Productos.ProductoRepository,
                                         entradas: seq<EntradaProducto>,
                                         request: SalidaService.CreateSalidaRequest, now: nat)
    returns (r: Result<SalidaProducto, ServiceError>)
    requires salidaRepo.Valid() && productoRepo.Valid()
    requires SalidaService.Admissible(request, productoRepo.productos)
    modifies salidaRepo, productoRepo
    ensures r == Err(StockUpdateFailed)
    ensures productoRepo.productos == old(productoRepo.productos)
    ensures |salidaRepo.salidas| == |old(salidaRepo.salidas)| + 1
    ensures Balance(Books(productoRepo.productos, entradas, salidaRepo.salidas), request.idProducto)
         == Balance(Books(old(productoRepo.productos), entradas, old(salidaRepo.salidas)), request.idProducto)
            + request.cantidad
  {
    ghost var b0 := Books(productoRepo.productos, entradas, salidaRepo.salidas);
    ghost var logged := SalidaService.Stored(request, salidaRepo.nextId, now);
    r := SalidaService.Create(salidaRepo, productoRepo, request, now, false, true);
    SalidaLoggedOnlyDrifts(b0, logged, Books(productoRepo.productos, entradas, salidaRepo.salidas));
  }

  /** An admitted receipt whose stock write the database refuses: the service reports the
      failure, the product table is as before, and the product's balance has moved down by the
      quantity, because the receipt stays in the log. */
  method ReceiptWithRefusedStockWrite(entradaRepo: Entradas.EntradaRepository,
                                      productoRepo: Productos.ProductoRepository,
                                      salidas: seq<SalidaProducto>,
                                      request: EntradaService.CreateEntradaRequest, now: nat)
    returns (r: Result<EntradaProducto, ServiceError>)
    requires entradaRepo.Valid() && productoRepo.Valid()
    requires EntradaService.Admissible(request, productoRepo.productos)
    modifies entradaRepo, productoRepo
    ensures r == Err(StockUpdateFailed)
    ensures productoRepo.productos == old(productoRepo.productos)
    ensures |entradaRepo.entradas| == |old(entradaRepo.entradas)| + 1
    ensures Balance(Books(productoRepo.productos, entradaRepo.entradas, salidas), request.idProducto)
         == Balance(Books(old(productoRepo.productos), old(entradaRepo.entradas), salidas), request.idProducto)
            - request.cantidad
  {
    ghost var b0 := Books(productoRepo.productos, entradaRepo.entradas, salidas);
    ghost var logged := EntradaService.Stored(request, entradaRepo.nextId, now);
    r := EntradaService.Create(entradaRepo, productoRepo, request, now, false, true);
    EntradaLoggedOnlyDrifts(b0, logged, Books(productoRepo.productos, entradaRepo.entradas, salidas));
  }
}
