/** The five write handlers of the inventory service as one object holding both tables.
    Each handler reads the tables, checks its rules, and either answers with an error
    and changes nothing, or updates the product table; creation, edits and movements
    also append to the movement log. */
module Inventory {
  import opened Wrappers
  import opened Catalog
  import opened Ledger
  import opened EditSummary

  /** The `fiyat` field of a creation request: absent, an explicit null, the empty
      string, or a value. */
  datatype PriceArg = Missing | Null | EmptyText | Given(value: Price)

  /** Which required field a rejected creation lacked. */
  datatype RequiredField = NameField | PriceField

  /** What a handler answers, in place of an HTTP status and body. */
  datatype Response =
    | Created(id: int)              // 201, {"durum": "ok", "id": ...}
    | Ok                            // 200, update, soft delete or restore done
    | Recorded(newQuantity: int)    // 201, {"durum": "kaydedildi", "yeni_miktar": ...}
    | Invalid(field: RequiredField) // 400, required field missing
    | Conflict                      // 400, an active product already has the name
    | NotFound                      // 404, no product with that id in the required state
    | InsufficientStock             // 400, "Stok yetersiz"

  /** The invariant that ties the two tables together, for products `ps`, movements
      `log`, and the unlogged opening part of each product's quantity. */
  ghost predicate Consistent(ps: seq<Product>, log: seq<Movement>, opening: seq<int>)
  {
    && |opening| == |ps|
    && (forall i :: 0 <= i < |ps| ==> ps[i].id == i + 1)
    && (forall k :: 0 <= k < |log| ==> 1 <= log[k].productId <= |ps|)
    && (forall i :: 0 <= i < |ps| ==> opening[i] <= 0)
    // the quantity is the unlogged opening part plus the signed sum of the product's movements
    && (forall i :: 0 <= i < |ps| ==> ps[i].quantity == opening[i] + LedgerSum(log, ps[i].id))
    // a quantity is negative only while it is still the negative creation quantity
    && (forall i :: 0 <= i < |ps| ==> ps[i].quantity >= 0 || ps[i].quantity == opening[i])
  }

  /** The quantity part of a creation that no movement records: a positive quantity is
      logged as an inbound movement, a negative one is stored unlogged. */
  function Unlogged(q: int): int
  {
    if q >= 0 then 0 else q
  }

  /** Creation: a fresh row with the next id, and its inbound entry when the quantity is positive. */
  lemma {:induction false} CreationKeepsConsistent(ps: seq<Product>, log: seq<Movement>, opening: seq<int>, p: Product)
    requires Consistent(ps, log, opening)
    requires p.id == |ps| + 1
    ensures
      var entries := if p.quantity > 0 then [Movement(p.id, Inbound, p.quantity, InitialNote)] else [];
      Consistent(ps + [p], log + entries, opening + [Unlogged(p.quantity)])
  {
    var entries := if p.quantity > 0 then [Movement(p.id, Inbound, p.quantity, InitialNote)] else [];
    var ps', log' := ps + [p], log + entries;
    LedgerSumUnreferenced(log, p.id);
    if p.quantity > 0 {
      LedgerSumAppend(log, entries[0], p.id);
      forall i | 0 <= i < |ps|
        ensures LedgerSum(log', ps[i].id) == LedgerSum(log, ps[i].id)
      {
        LedgerSumAppend(log, entries[0], ps[i].id);
      }
    } else {
      assert log' == log;
    }
    assert ps'[|ps|] == p;
  }

  /** A row change that keeps id and quantity (rename, reprice, soft delete, restore),
      together with an optional entry of amount 0 for that row. */
  lemma {:induction false} RowChangeKeepsConsistent(ps: seq<Product>, log: seq<Movement>, opening: seq<int>,
                                                    id: int, row: Product, entries: seq<Movement>)
    requires Consistent(ps, log, opening)
    requires 1 <= id <= |ps| && row.id == id && row.quantity == ps[id - 1].quantity
    requires entries == [] || entries == [Movement(id, EditKind, 0, entries[0].note)]
    ensures Consistent(ps[id - 1 := row], log + entries, opening)
  {
    if entries != [] {
      forall i | 0 <= i < |ps|
        ensures LedgerSum(log + entries, ps[i].id) == LedgerSum(log, ps[i].id)
      {
        LedgerSumAppend(log, entries[0], ps[i].id);
      }
    } else {
      assert log + entries == log;
    }
  }

  /** An accepted movement: the row's quantity becomes its current value plus the
      movement's effect, which is not negative, and the movement is appended. */
  lemma {:induction false} MovementKeepsConsistent(ps: seq<Product>, log: seq<Movement>, opening: seq<int>, m: Movement)
    requires Consistent(ps, log, opening)
    requires 1 <= m.productId <= |ps|
    requires ps[m.productId - 1].quantity + Effect(m.kind, m.amount) >= 0
    ensures
      var row := ps[m.productId - 1];
      Consistent(ps[m.productId - 1 := row.(quantity := row.quantity + Effect(m.kind, m.amount))], log + [m], opening)
  {
    forall i | 0 <= i < |ps|
      ensures LedgerSum(log + [m], ps[i].id) == LedgerSum(log, ps[i].id) + Contribution(m, ps[i].id)
    {
      LedgerSumAppend(log, m, ps[i].id);
    }
  }

  class Store {
    /** The product table; the row with id k sits at index k - 1. */
    var products: seq<Product>
    /** The movement table, in insertion order. */
    var log: seq<Movement>
    /** The id the next created product receives. */
    var nextId: int
    /** Per product, the part of its creation quantity that no movement records. */
    ghost var opening: seq<int>
    /** How a price is written in an edit note (Python's float formatting). */
    const priceText: Price -> string

    ghost predicate Valid()
      reads this
    {
      nextId == |products| + 1 && Consistent(products, log, opening)
    }

    /** The product with `id` exists and is not soft-deleted. */
    ghost predicate IsActive(id: int)
      reads this
    {
      1 <= id <= |products| && !products[id - 1].deleted
    }

    /** The product with `id` exists and is soft-deleted. */
    ghost predicate IsDeleted(id: int)
      reads this
    {
      1 <= id <= |products| && products[id - 1].deleted
    }

    /** Empty tables; ids start at 1. */
    constructor (priceText: Price -> string)
      ensures Valid()
      ensures products == [] && log == [] && nextId == 1
      ensures this.priceText == priceText
    {
      products, log, nextId := [], [], 1;
      opening := [];
      this.priceText := priceText;
    }

    /** `SELECT * FROM urunler WHERE id = ? AND silindi = ?`. */
    function Lookup(id: int, deleted: bool): (r: Option<Product>)
      reads this
      requires Valid()
      ensures r.Some? <==> (if deleted then IsDeleted(id) else IsActive(id))
      ensures r.Some? ==> r.value == products[id - 1] && r.value.id == id
    {
      if 1 <= id <= |products| && products[id - 1].deleted == deleted then Some(products[id - 1]) else None
    }

    /** Adds a product after its name and price pass and its name is not held by an
        active product; a positive quantity is logged as an inbound movement. */
    method Create(name: Option<string>, quantity: Option<int>, unit: Option<string>, price: PriceArg)
      returns (r: Response)
      requires Valid()
      modifies this
      ensures Valid()
      ensures old(UniqueActiveNames(products)) ==> UniqueActiveNames(products)
      ensures r.Invalid? <==> name.None? || name.value == "" || price.Null? || price.EmptyText?
      ensures r.Invalid? ==> r.field == if name.None? || name.value == "" then NameField else PriceField
      ensures r.Invalid? ==> unchanged(this)
      ensures name.Some? && name.value != "" && (price.Missing? || price.Given?) ==>
        (r == Conflict <==> NameInUse(old(products), name.value, None))
      ensures r == Conflict ==> unchanged(this)
      ensures r.Invalid? || r.Conflict? || r.Created?
      ensures r.Created? ==>
        var q := quantity.GetOr(DefaultQuantity);
        var p := if price.Given? then price.value else DefaultPrice;
        var id := old(nextId);
        && name.Some? && name.value != "" && (price.Missing? || price.Given?)
        && r.id == id
        && products == old(products) + [Product(id, name.value, q, unit.GetOr(DefaultUnit), p, false)]
        && log == old(log) + (if q > 0 then [Movement(id, Inbound, q, InitialNote)] else [])
        && nextId == id + 1
        && opening == old(opening) + [Unlogged(q)]
    {
      if name.None? || name.value == "" {
        return Invalid(NameField);
      }
      if price.Null? || price.EmptyText? {
        return Invalid(PriceField);
      }
      var n := name.value;
      var q := quantity.GetOr(DefaultQuantity);
      var p := if price.Given? then price.value else DefaultPrice;

      var taken := CountNamed(products, n, None);
      CountNamedPositive(products, n, None);
      if taken > 0 {
        return Conflict;
      }

      var id := nextId;
      var row := Product(id, n, q, unit.GetOr(DefaultUnit), p, false);
      CreationKeepsConsistent(products, log, opening, row);
      if UniqueActiveNames(products) {
        AddKeepsUniqueNames(products, row);
      }
      products := products + [row];
      opening := opening + [Unlogged(q)];
      nextId := nextId + 1;
      if q > 0 {
        log := log + [Movement(id, Inbound, q, InitialNote)];
      } else {
        assert log + [] == log;
      }
      r := Created(id);
    }

    /** Applies the supplied name and price to an active product and logs the edit
        with amount 0; a new name held by another active product is refused. */
    method Update(id: int, newName: Option<string>, newPrice: Option<Price>, remark: string)
      returns (r: Response)
      requires Valid()
      modifies this
      ensures Valid()
      ensures old(UniqueActiveNames(products)) ==> UniqueActiveNames(products)
      ensures r == NotFound <==> !old(IsActive(id))
      ensures r == NotFound ==> unchanged(this)
      ensures old(IsActive(id)) ==>
        (r == Conflict <==> Renames(old(products[id - 1].name), newName) && NameInUse(old(products), newName.value, Some(id)))
      ensures r == Conflict ==> unchanged(this)
      ensures r.NotFound? || r.Conflict? || r.Ok?
      ensures r == Ok ==>
        var before := old(products[id - 1]);
        && old(IsActive(id))
        && products == old(products)[id - 1 := before.(name := newName.GetOr(before.name), price := newPrice.GetOr(before.price))]
        && log == old(log) + [Movement(id, EditKind, 0, EditNote(before.name, before.price, newName, newPrice, remark, priceText))]
        && nextId == old(nextId) && opening == old(opening)
    {
      var found := Lookup(id, false);
      if found.None? {
        return NotFound;
      }
      var before := found.value;

      if newName.Some? && newName.value != before.name {
        var taken := CountNamed(products, newName.value, Some(id));
        CountNamedPositive(products, newName.value, Some(id));
        if taken > 0 {
          return Conflict;
        }
      }

      var row := before.(name := newName.GetOr(before.name), price := newPrice.GetOr(before.price));
      var note := EditNote(before.name, before.price, newName, newPrice, remark, priceText);
      WriteEdit(row, note);
      r := Ok;
    }

    /** The write half of an edit: the row takes its new name and price, and one entry
        of kind "duzenleme" with amount 0 and the given note is appended. */
    method WriteEdit(row: Product, note: string)
      requires Valid() && IsActive(row.id)
      requires row.quantity == products[row.id - 1].quantity && row.unit == products[row.id - 1].unit && !row.deleted
      requires row.name == products[row.id - 1].name || !NameInUse(products, row.name, Some(row.id))
      modifies this
      ensures Valid()
      ensures old(UniqueActiveNames(products)) ==> UniqueActiveNames(products)
      ensures products == old(products)[row.id - 1 := row]
      ensures log == old(log) + [Movement(row.id, EditKind, 0, note)]
      ensures nextId == old(nextId) && opening == old(opening)
    {
      var m := Movement(row.id, EditKind, 0, note);
      RowChangeKeepsConsistent(products, log, opening, row.id, row, [m]);
      if UniqueActiveNames(products) {
        ChangeKeepsUniqueNames(products, row.id - 1, row);
      }
      products := products[row.id - 1 := row];
      log := log + [m];
    }

    /** Soft-deletes an active product: only its flag changes, nothing is logged. */
    method SoftDelete(id: int) returns (r: Response)
      requires Valid()
      modifies this
      ensures Valid()
      ensures old(UniqueActiveNames(products)) ==> UniqueActiveNames(products)
      ensures !old(IsActive(id)) ==> r == NotFound && unchanged(this)
      ensures old(IsActive(id)) ==>
        && r == Ok
        && products == old(products)[id - 1 := old(products[id - 1]).(deleted := true)]
        && log == old(log) && nextId == old(nextId) && opening == old(opening)
    {
      var found := Lookup(id, false);
      if found.None? {
        return NotFound;
      }
      var row := found.value.(deleted := true);
      RowChangeKeepsConsistent(products, log, opening, id, row, []);
      if UniqueActiveNames(products) {
        ChangeKeepsUniqueNames(products, id - 1, row);
      }
      assert log + [] == log;
      products := products[id - 1 := row];
      r := Ok;
    }

    /** Restores a soft-deleted product: only its flag changes, nothing is logged, and
        its name is not checked against the active products. */
    method Restore(id: int) returns (r: Response)
      requires Valid()
      modifies this
      ensures Valid()
      ensures !old(IsDeleted(id)) ==> r == NotFound && unchanged(this)
      ensures old(IsDeleted(id)) ==>
        && r == Ok
        && products == old(products)[id - 1 := old(products[id - 1]).(deleted := false)]
        && log == old(log) && nextId == old(nextId) && opening == old(opening)
    {
      var found := Lookup(id, true);
      if found.None? {
        return NotFound;
      }
      var row := found.value.(deleted := false);
      RowChangeKeepsConsistent(products, log, opening, id, row, []);
      assert log + [] == log;
      products := products[id - 1 := row];
      r := Ok;
    }

    /** Applies a stock movement to an active product unless it would leave the
        quantity negative; an accepted movement is logged as given. */
    method RecordMovement(id: int, kind: string, amount: int, note: string) returns (r: Response)
      requires Valid()
      modifies this
      ensures Valid()
      ensures old(UniqueActiveNames(products)) ==> UniqueActiveNames(products)
      ensures !old(IsActive(id)) ==> r == NotFound && unchanged(this)
      ensures old(IsActive(id)) && old(products[id - 1].quantity) + Effect(kind, amount) < 0 ==>
        r == InsufficientStock && unchanged(this)
      ensures old(IsActive(id)) && old(products[id - 1].quantity) + Effect(kind, amount) >= 0 ==>
        var now := old(products[id - 1].quantity) + Effect(kind, amount);
        && r == Recorded(now)
        && products == old(products)[id - 1 := old(products[id - 1]).(quantity := now)]
        && log == old(log) + [Movement(id, kind, amount, note)]
        && nextId == old(nextId) && opening == old(opening)
      ensures r.Recorded? ==> r.newQuantity >= 0
    {
      var found := Lookup(id, false);
      if found.None? {
        return NotFound;
      }
      var current := found.value.quantity;
      var updated := current + Effect(kind, amount);
      if updated < 0 {
        return InsufficientStock;
      }

      var m := Movement(id, kind, amount, note);
      MovementKeepsConsistent(products, log, opening, m);
      if UniqueActiveNames(products) {
        ChangeKeepsUniqueNames(products, id - 1, found.value.(quantity := updated));
      }
      products := products[id - 1 := found.value.(quantity := updated)];
      log := log + [m];
      r := Recorded(updated);
    }

    /** For a product created with a non-negative quantity, the stored quantity is the
        signed sum of its movements, and it is never negative. */
    lemma QuantityIsLedgerSum(id: int)
      requires Valid()
      requires 1 <= id <= |products| && opening[id - 1] == 0
      ensures products[id - 1].quantity == LedgerSum(log, id)
      ensures products[id - 1].quantity >= 0
    {
    }
  }
}
