/** Client code: what a caller of the handlers can conclude from their contracts alone,
    replaying the documented behaviour step by step. */
module Scenarios {
  import opened Wrappers
  import opened Catalog
  import opened Ledger
  import opened EditSummary
  import opened Inventory

  /** Soft delete followed by restore gives back both tables exactly as they were. */
  method DeleteThenRestore(s: Store, id: int) returns (deleted: Response, restored: Response)
    requires s.Valid() && s.IsActive(id)
    modifies s
    ensures s.Valid()
    ensures deleted == Ok && restored == Ok
    ensures s.products == old(s.products) && s.log == old(s.log) && s.nextId == old(s.nextId)
  {
    deleted := s.SoftDelete(id);
    assert s.IsDeleted(id);
    restored := s.Restore(id);
  }

  /** Create, take out, soft delete: the product leaves the active listing, enters the
      trash listing, and its two movements stay. */
  method WidgetLifecycle(priceText: Price -> string)
  {
    var s := new Store(priceText);
    var r := s.Create(Some("Widget"), Some(10), Some("adet"), Given(2.5));
    assert r == Created(1);
    assert s.products[0].quantity == 10;
    assert s.log == [Movement(1, Inbound, 10, InitialNote)];

    r := s.RecordMovement(1, "cikis", 4, "");
    assert r == Recorded(6);
    assert |s.log| == 2;

    r := s.SoftDelete(1);
    assert r == Ok;
    assert s.products[0] !in Active(s.products) && s.products[0] in Deleted(s.products);
    assert |s.log| == 2;
  }

  /** An active name blocks a second creation with the same name. */
  method ActiveNameBlocks(priceText: Price -> string)
  {
    var s := new Store(priceText);
    var r := s.Create(Some("Pen"), None, None, Missing);
    assert r == Created(1);
    assert s.products == [Product(1, "Pen", 0, DefaultUnit, DefaultPrice, false)];
    assert s.log == [];

    assert Clashes(s.products[0], "Pen", None);
    r := s.Create(Some("Pen"), Some(3), None, Given(1.0));
    assert r == Conflict;
  }

  /** A soft-deleted name does not block a creation, and restoring the deleted product
      afterwards leaves two active products with the same name. */
  method RestoreAllowsDuplicate(priceText: Price -> string)
  {
    var s := new Store(priceText);
    var r := s.Create(Some("Pen"), None, None, Missing);
    assert r == Created(1);
    r := s.SoftDelete(1);
    assert r == Ok && |s.products| == 1 && s.products[0].deleted;

    r := s.Create(Some("Pen"), Some(3), None, Given(1.0));
    assert r == Created(2);

    r := s.Restore(1);
    assert r == Ok;
    assert !s.products[0].deleted && !s.products[1].deleted;
    assert s.products[0].name == s.products[1].name == "Pen";
    assert !UniqueActiveNames(s.products);
  }

  /** An outbound movement that would take the quantity below zero is refused and
      leaves quantity and log as they were; any kind but "giris" subtracts. */
  method StockNeverNegative(priceText: Price -> string)
  {
    var s := new Store(priceText);
    var r := s.Create(Some("Pencil"), Some(5), None, Given(1.5));
    assert r == Created(1);

    r := s.RecordMovement(1, "cikis", 3, "");
    assert r == Recorded(2);
    r := s.RecordMovement(1, "cikis", 3, "");
    assert r == InsufficientStock;
    assert s.products[0].quantity == 2 && |s.log| == 2;

    r := s.RecordMovement(1, "sayim", 2, "");
    assert r == Recorded(0);
    r := s.RecordMovement(2, Inbound, 1, "");
    assert r == NotFound;
  }

  /** A negative creation quantity is accepted and not logged; the product keeps it
      until a movement brings the quantity to zero or above. */
  method NegativeOpening(priceText: Price -> string)
  {
    var s := new Store(priceText);
    var r := s.Create(Some("Eraser"), Some(-4), None, Missing);
    assert r == Created(1);
    assert s.products[0].quantity == -4 && s.log == [];

    r := s.RecordMovement(1, Inbound, 3, "");
    assert r == InsufficientStock;
    r := s.RecordMovement(1, Inbound, 4, "");
    assert r == Recorded(0);
  }

  /** A price change alone, with a blank remark, is logged with the price line only,
      and the quantity is untouched. */
  method PriceOnlyEdit(s: Store, id: int, price: Price, remark: string) returns (r: Response)
    requires s.Valid() && s.IsActive(id)
    requires price != s.products[id - 1].price && Blank(remark)
    modifies s
    ensures r == Ok
    ensures s.log == old(s.log) + [Movement(id, EditKind, 0, ChangeText(Repriced(old(s.products[id - 1].price), price), s.priceText))]
    ensures s.products == old(s.products)[id - 1 := old(s.products[id - 1]).(price := price)]
  {
    var before := s.products[id - 1];
    r := s.Update(id, None, Some(price), remark);
    EditSummaryFormat(before.name, before.price, None, Some(price), s.priceText);
    EditNoteRemark(before.name, before.price, None, Some(price), remark, s.priceText);
  }

  /** An edit that changes nothing is still logged: with the no-change marker, followed by
      the trimmed remark when there is one. */
  method NoChangeEdit(s: Store, id: int, remark: string) returns (r: Response)
    requires s.Valid() && s.IsActive(id)
    modifies s
    ensures r == Ok
    ensures s.products == old(s.products)
    ensures s.log == old(s.log) + [Movement(id, EditKind, 0,
      if Blank(remark) then NoChangesText else NoChangesText + RemarkLabel + Trim(remark))]
  {
    var before := s.products[id - 1];
    r := s.Update(id, Some(before.name), Some(before.price), remark);
    EditSummaryFormat(before.name, before.price, Some(before.name), Some(before.price), s.priceText);
    EditNoteRemark(before.name, before.price, Some(before.name), Some(before.price), remark, s.priceText);
  }
}
