/** The product table `urunler` and the queries the handlers run against it. */
module Catalog {
  import opened Wrappers

  /** Prices are compared and stored, never computed with: an opaque ordered value. */
  type Price = real

  /** Column defaults of the product table and of the creation request. */
  const DefaultUnit: string := "adet"
  const DefaultQuantity: int := 0
  const DefaultPrice: Price := 0.0

  /** One row of `urunler`: id, name (`ad`), quantity (`miktar`), unit (`birim`),
      price (`fiyat`) and the soft-delete flag (`silindi`). */
  datatype Product = Product(id: int, name: string, quantity: int, unit: string, price: Price, deleted: bool)

  /** The rows of `SELECT * FROM urunler WHERE silindi = 0`, in table order. */
  function Active(ps: seq<Product>): (r: seq<Product>)
    ensures |r| <= |ps|
    ensures forall p :: p in r <==> p in ps && !p.deleted
  {
    if ps == [] then []
    else (if ps[0].deleted then [] else [ps[0]]) + Active(ps[1..])
  }

  /** The rows of `SELECT * FROM urunler WHERE silindi = 1` (the trash view), in table order. */
  function Deleted(ps: seq<Product>): (r: seq<Product>)
    ensures |r| <= |ps|
    ensures forall p :: p in r <==> p in ps && p.deleted
  {
    if ps == [] then []
    else (if ps[0].deleted then [ps[0]] else []) + Deleted(ps[1..])
  }

  /** Every row is listed by exactly one of the two views. */
  lemma {:induction false} ActiveDeletedPartition(ps: seq<Product>)
    ensures |Active(ps)| + |Deleted(ps)| == |ps|
    ensures forall p :: p in ps <==> (p in Active(ps) || p in Deleted(ps))
    ensures forall p :: !(p in Active(ps) && p in Deleted(ps))
  {
    if ps != [] {
      ActiveDeletedPartition(ps[1..]);
    }
  }

  /** A row that the duplicate-name query matches: active, with exactly that name,
      and not the row being edited (when there is one). */
  predicate Clashes(p: Product, name: string, except: Option<int>)
  {
    !p.deleted && p.name == name && (except.None? || p.id != except.value)
  }

  /** Some row clashes with `name`. */
  ghost predicate NameInUse(ps: seq<Product>, name: string, except: Option<int>)
  {
    exists i :: 0 <= i < |ps| && Clashes(ps[i], name, except)
  }

  /** `SELECT COUNT(*) FROM urunler WHERE ad = ? AND silindi = 0 [AND id != ?]`. */
  function CountNamed(ps: seq<Product>, name: string, except: Option<int>): nat
  {
    if ps == [] then 0
    else CountNamed(ps[..|ps| - 1], name, except) + (if Clashes(ps[|ps| - 1], name, except) then 1 else 0)
  }

  /** The count is positive exactly when some row clashes. */
  lemma {:induction false} CountNamedPositive(ps: seq<Product>, name: string, except: Option<int>)
    ensures CountNamed(ps, name, except) > 0 <==> NameInUse(ps, name, except)
  {
    if ps != [] {
      var init := ps[..|ps| - 1];
      CountNamedPositive(init, name, except);
      if NameInUse(init, name, except) {
        var i :| 0 <= i < |init| && Clashes(init[i], name, except);
        assert ps[i] == init[i];
      }
      if NameInUse(ps, name, except) && !Clashes(ps[|ps| - 1], name, except) {
        var i :| 0 <= i < |ps| && Clashes(ps[i], name, except);
        assert init[i] == ps[i];
      }
    }
  }

  /** No two active rows share a name. */
  ghost predicate UniqueActiveNames(ps: seq<Product>)
  {
    forall i, j :: 0 <= i < j < |ps| && !ps[i].deleted && !ps[j].deleted ==> ps[i].name != ps[j].name
  }

  /** Adding an active row whose name no active row holds keeps active names unique. */
  lemma AddKeepsUniqueNames(ps: seq<Product>, p: Product)
    requires UniqueActiveNames(ps)
    requires !NameInUse(ps, p.name, None)
    ensures UniqueActiveNames(ps + [p])
  {
    var ps' := ps + [p];
    assert forall i :: 0 <= i < |ps| ==> ps'[i] == ps[i];
  }

  /** Changing row `k` keeps active names unique when the row stays active with its old
      name, or takes a name that no other active row holds, or becomes deleted. Rows are
      told apart by their ids. */
  lemma ChangeKeepsUniqueNames(ps: seq<Product>, k: int, row: Product)
    requires UniqueActiveNames(ps)
    requires forall i :: 0 <= i < |ps| ==> ps[i].id == i + 1
    requires 0 <= k < |ps| && row.id == ps[k].id
    requires row.deleted || (!ps[k].deleted && row.name == ps[k].name) || !NameInUse(ps, row.name, Some(row.id))
    ensures UniqueActiveNames(ps[k := row])
  {
    var ps' := ps[k := row];
    forall i, j | 0 <= i < j < |ps'| && !ps'[i].deleted && !ps'[j].deleted
      ensures ps'[i].name != ps'[j].name
    {
    }
  }
}
