/** The products table and its repository: lookups by id and by code, the name-ordered
    listing, the low-stock listing, the text search, and the insert, update and delete
    statements. */
module Productos {
  import opened Wrappers
  import opened Text
  import opened Sorting
  import opened Domain

  const NotFoundMessage := "producto no encontrado"

  /** The table's rows, as a scan produces them: here in ascending id order. */
  function Rows(productos: map<int, Producto>): (r: seq<Producto>)
    ensures |r| == |productos|
    ensures forall k :: k in productos ==> productos[k] in r
    ensures forall p :: p in r ==> p in productos.Values
    decreases |productos|
  {
    if productos == map[] then []
    else
      var k := MinKey(productos.Keys);
      var rest := productos - {k};
      assert |rest| == |productos| - 1;
      assert forall j :: j in productos && j != k ==> j in rest && rest[j] == productos[j];
      assert forall p :: p in rest.Values ==> p in productos.Values by {
        forall p | p in rest.Values ensures p in productos.Values {
          var j :| j in rest && rest[j] == p;
          assert j in productos && productos[j] == p;
        }
      }
      [productos[k]] + Rows(rest)
  }

  /** When every row sits under its own id, the scan yields each product exactly once. */
  lemma {:induction false} RowsOnce(productos: map<int, Producto>)
    ensures (forall k :: k in productos ==> productos[k].id == k)
            ==> forall p :: multiset(Rows(productos))[p] == if p in productos.Values then 1 else 0
    decreases |productos|
  {
    if (forall k :: k in productos ==> productos[k].id == k) && productos != map[] {
      var k := MinKey(productos.Keys);
      var rest := productos - {k};
      assert |rest| == |productos| - 1;
      RowsOnce(rest);
      assert Rows(productos) == [productos[k]] + Rows(rest);
      forall p ensures multiset(Rows(productos))[p] == if p in productos.Values then 1 else 0 {
        if p == productos[k] {
          forall j | j in rest ensures rest[j] != p {
            assert rest[j].id == j != k;
          }
        } else {
          assert p in productos.Values <==> p in rest.Values by {
            if p in productos.Values {
              var j :| j in productos && productos[j] == p;
              assert j in rest;
            }
            if p in rest.Values {
              var j :| j in rest && rest[j] == p;
              assert productos[j] == p;
            }
          }
        }
      }
    }
  }

  function MinKey(keys: set<int>): (k: int)
    requires keys != {}
    ensures k in keys && forall j :: j in keys ==> k <= j
  {
    MinKeyExists(keys);
    var k :| k in keys && forall j :: j in keys ==> k <= j;
    k
  }

  lemma {:induction false} MinKeyExists(keys: set<int>)
    requires keys != {}
    ensures exists k :: k in keys && forall j :: j in keys ==> k <= j
  {
    if forall x :: x !in keys {
      assert false;
    }
    var x :| x in keys;
    if keys != {x} {
      MinKeyExists(keys - {x});
      var m :| m in keys - {x} && forall j :: j in keys - {x} ==> m <= j;
      var least := if x < m then x else m;
      forall j | j in keys ensures least <= j {
        if j != x {
          assert j in keys - {x};
        }
      }
    } else {
      assert forall j :: j in keys ==> x <= j;
    }
  }

  /** `ORDER BY nombre`. */
  predicate ByNombre(a: Producto, b: Producto) {
    StrLe(a.nombre, b.nombre)
  }

  /** `ORDER BY stock_actual ASC`. */
  predicate ByStock(a: Producto, b: Producto) {
    a.stockActual <= b.stockActual
  }

  lemma ByNombreTotal()
    ensures Total(ByNombre)
  {
    forall a: Producto, b: Producto ensures ByNombre(a, b) || ByNombre(b, a) {
      StrLeTotal(a.nombre, b.nombre);
    }
  }

  /** Every product, ordered by name. */
  function GetAll(productos: map<int, Producto>): (r: seq<Producto>)
    ensures |r| == |productos|
    ensures forall p :: p in r <==> p in productos.Values
    ensures multiset(r) == multiset(Rows(productos))
    ensures Sorted(r, ByNombre)
  {
    ByNombreTotal();
    SortBySorted(Rows(productos), ByNombre);
    var r := SortBy(Rows(productos), ByNombre);
    assert forall p :: p in r <==> p in Rows(productos) by {
      forall p ensures p in r <==> p in Rows(productos) {
        assert p in r <==> multiset(r)[p] > 0;
        assert p in Rows(productos) <==> multiset(Rows(productos))[p] > 0;
      }
    }
    assert forall p :: p in productos.Values ==> p in Rows(productos) by {
      forall p | p in productos.Values ensures p in Rows(productos) {
        var k :| k in productos && productos[k] == p;
      }
    }
    r
  }

  /** The row with primary key `id`, or "producto no encontrado". */
  function GetByID(productos: map<int, Producto>, id: int): (r: Result<Producto, RepoError>)
    ensures r.Ok? <==> id in productos
    ensures r.Ok? ==> r.value == productos[id]
    ensures r.Err? ==> r.error == NotFound(NotFoundMessage)
  {
    if id in productos then Ok(productos[id]) else Err(NotFound(NotFoundMessage))
  }

  /** Some product uses `codigo`. */
  predicate CodigoEnUso(productos: map<int, Producto>, codigo: string) {
    exists k :: k in productos && productos[k].codigo == codigo
  }

  /** No two products share a code. */
  predicate CodesUnique(productos: map<int, Producto>) {
    forall j, k :: j in productos && k in productos && productos[j].codigo == productos[k].codigo ==> j == k
  }

  /** Writing a row whose code no other key holds keeps codes unique. */
  lemma {:induction false} PutKeepsCodesUnique(productos: map<int, Producto>, k: int, p: Producto)
    requires CodesUnique(productos)
    requires forall j :: j in productos && j != k ==> productos[j].codigo != p.codigo
    ensures CodesUnique(productos[k := p])
  {
    var m := productos[k := p];
    forall i, j | i in m && j in m && m[i].codigo == m[j].codigo ensures i == j {
      if i != k && j != k {
        assert m[i] == productos[i] && m[j] == productos[j];
      }
    }
  }

  /** A product whose code is `codigo`, or "producto no encontrado" when there is none. */
  function GetByCodigo(productos: map<int, Producto>, codigo: string): (r: Result<Producto, RepoError>)
    ensures r.Ok? <==> CodigoEnUso(productos, codigo)
    ensures r.Ok? ==> r.value in productos.Values && r.value.codigo == codigo
    ensures r.Err? ==> r.error == NotFound(NotFoundMessage)
  {
    var matches := Filter(Rows(productos), (p: Producto) => p.codigo == codigo);
    if matches == [] then
      Err(NotFound(NotFoundMessage))
    else
      assert matches[0] in matches;
      var p := matches[0];
      assert exists k :: k in productos && productos[k] == p;
      Ok(p)
  }

  /** With unique codes, a code lookup finds the one product that has it. */
  lemma GetByCodigoUnique(productos: map<int, Producto>, k: int)
    requires CodesUnique(productos) && k in productos
    requires forall j :: j in productos ==> productos[j].id == j
    ensures GetByCodigo(productos, productos[k].codigo) == Ok(productos[k])
  {
    var r := GetByCodigo(productos, productos[k].codigo);
    var j :| j in productos && productos[j] == r.value;
  }

  /** `WHERE stock_actual <= limite ORDER BY stock_actual ASC`. */
  function GetStockBajo(productos: map<int, Producto>, limite: int): (r: seq<Producto>)
    ensures forall p :: p in r <==> p in productos.Values && p.stockActual <= limite
    ensures forall p :: multiset(r)[p] == if p.stockActual <= limite then multiset(Rows(productos))[p] else 0
    ensures Sorted(r, ByStock)
  {
    SelectOrdered(Rows(productos), (p: Producto) => p.stockActual <= limite, ByStock);
    SortBy(Filter(Rows(productos), (p: Producto) => p.stockActual <= limite), ByStock)
  }

  /** The lowered code or name contains `term`. */
  predicate Matches(p: Producto, term: string) {
    Contains(ToLower(p.codigo), term) || Contains(ToLower(p.nombre), term)
  }

  /** The search: the term is trimmed and lowered; an empty term lists everything, any other
      selects the products whose lowered code or name contains it, ordered by name. */
  function Search(productos: map<int, Producto>, termino: string): (r: seq<Producto>)
    ensures Sorted(r, ByNombre)
    ensures forall p :: p in r <==> p in productos.Values && (ToLower(TrimSpace(termino)) == "" || Matches(p, ToLower(TrimSpace(termino))))
    ensures forall p :: multiset(r)[p]
                        == if ToLower(TrimSpace(termino)) == "" || Matches(p, ToLower(TrimSpace(termino)))
                           then multiset(Rows(productos))[p] else 0
  {
    var term := ToLower(TrimSpace(termino));
    if term == "" then GetAll(productos) else Matching(productos, term)
  }

  /** The products whose lowered code or name contains `term`, ordered by name. */
  function Matching(productos: map<int, Producto>, term: string): (r: seq<Producto>)
    ensures Sorted(r, ByNombre)
    ensures forall p :: p in r <==> p in productos.Values && Matches(p, term)
    ensures forall p :: multiset(r)[p] == if Matches(p, term) then multiset(Rows(productos))[p] else 0
  {
    ByNombreTotal();
    SelectOrdered(Rows(productos), (p: Producto) => Matches(p, term), ByNombre);
    SortBy(Filter(Rows(productos), (p: Producto) => Matches(p, term)), ByNombre)
  }

  /** A term made only of white space searches like no term at all. */
  lemma {:induction false} BlankSearchIsGetAll(productos: map<int, Producto>, termino: string)
    requires AllSpace(termino)
    ensures Search(productos, termino) == GetAll(productos)
  {
    BlankIffAllSpace(termino);
  }

  /** The columns an UPDATE sets, copied from `p` onto the stored row; the id and the
      timestamps stay those of the row. */
  function Assign(row: Producto, p: Producto): (r: Producto)
    ensures r == p.(id := row.id, fechaCreacion := row.fechaCreacion, fechaActualizacion := row.fechaActualizacion)
  {
    row.(codigo := p.codigo, nombre := p.nombre, idCategoria := p.idCategoria,
         unidadMedida := p.unidadMedida, precioUnitario := p.precioUnitario,
         stockActual := p.stockActual, stockInicial := p.stockInicial)
  }

  /** The products table, keyed by `id_producto`, with the id sequence. */
  class ProductoRepository {
    var productos: map<int, Producto>
    var nextId: int

    ghost predicate Valid()
      reads this
    {
      nextId >= 1 && forall k :: k in productos ==> productos[k].id == k && 0 < k < nextId
    }

    constructor ()
      ensures Valid() && productos == map[] && nextId == 1
    {
      productos := map[];
      nextId := 1;
    }

    /** INSERT: a new row under a fresh id, stamped `now`; the stored row, which is also what
        the caller's record becomes, is returned. */
    method Create(p: Producto, now: nat, fails: bool) returns (r: Result<Producto, RepoError>)
      requires Valid()
      modifies this
      ensures Valid()
      ensures r.Ok? <==> !fails
      ensures r.Err? ==> r.error == DatabaseError && unchanged(this)
      ensures r.Ok? ==> r.value == p.(id := old(nextId), fechaCreacion := now, fechaActualizacion := now)
      ensures r.Ok? ==> r.value.id > 0 && r.value.id !in old(productos)
      ensures r.Ok? ==> productos == old(productos)[r.value.id := r.value]
    {
      if fails {
        return Err(DatabaseError);
      }
      var stored := p.(id := nextId, fechaCreacion := now, fechaActualizacion := now);
      productos := productos[nextId := stored];
      nextId := nextId + 1;
      r := Ok(stored);
    }

    /** UPDATE ... WHERE id_producto = p.id: overwrites the seven data columns of that row,
        or reports "producto no encontrado". The caller's record gets the row's
        modification stamp back. */
    method Update(p: Producto, fails: bool) returns (r: Result<Producto, RepoError>)
      requires Valid()
      modifies this
      ensures Valid() && nextId == old(nextId)
      ensures r.Ok? <==> !fails && p.id in old(productos)
      ensures r.Err? ==> unchanged(this)
      ensures fails ==> r == Err(DatabaseError)
      ensures !fails && p.id !in old(productos) ==> r == Err(NotFound(NotFoundMessage))
      ensures r.Ok? ==> productos == old(productos)[p.id := Assign(old(productos)[p.id], p)]
      ensures r.Ok? ==> r.value == p.(fechaActualizacion := old(productos)[p.id].fechaActualizacion)
    {
      if fails {
        return Err(DatabaseError);
      }
      if p.id !in productos {
        return Err(NotFound(NotFoundMessage));
      }
      var row := productos[p.id];
      productos := productos[p.id := Assign(row, p)];
      r := Ok(p.(fechaActualizacion := row.fechaActualizacion));
    }

    /** DELETE ... WHERE id_producto = id: removes that row only, or reports
        "producto no encontrado" when no row was affected. */
    method Delete(id: int, fails: bool) returns (r: Result<(), RepoError>)
      requires Valid()
      modifies this
      ensures Valid() && nextId == old(nextId)
      ensures r.Ok? <==> !fails && id in old(productos)
      ensures r.Err? ==> unchanged(this)
      ensures fails ==> r == Err(DatabaseError)
      ensures !fails && id !in old(productos) ==> r == Err(NotFound(NotFoundMessage))
      ensures r.Ok? ==> productos == old(productos) - {id}
    {
      if fails {
        return Err(DatabaseError);
      }
      if id !in productos {
        return Err(NotFound(NotFoundMessage));
      }
      productos := productos - {id};
      r := Ok(());
    }
  }
}
