/** The stock-movement table `stok_hareketleri`: an append-only log of quantity changes
    and audit entries, and the signed sum that ties it to a product's stored quantity. */
module Ledger {

  /** Movement kinds and notes the handlers write themselves. Any other kind string a
      caller sends (for instance "cikis") is stored as given. */
  const Inbound: string := "giris"
  const EditKind: string := "duzenleme"
  const InitialNote: string := "İlk ekleme"

  /** One row of `stok_hareketleri`: product id (`urun_id`), kind (`hareket_tipi`),
      amount (`miktar`) and note (`aciklama`). The row id and the timestamp are not
      modelled: a row's place in the log is its order of insertion. */
  datatype Movement = Movement(productId: int, kind: string, amount: int, note: string)

  /** The signed change a movement of `kind` and `amount` makes to the quantity:
      "giris" adds, every other kind subtracts. */
  function Effect(kind: string, amount: int): int
  {
    if kind == Inbound then amount else -amount
  }

  /** Only an inbound movement raises the stock; every other kind, whatever its name,
      lowers it by the same amount, and a zero amount changes nothing. */
  lemma EffectDirection(kind: string, amount: int)
    ensures kind == Inbound ==> Effect(kind, amount) == amount
    ensures kind != Inbound ==> Effect(kind, amount) == -amount
    ensures amount > 0 ==> (Effect(kind, amount) > 0 <==> kind == Inbound)
    ensures Effect(kind, 0) == 0
  {
  }

  /** What movement `m` contributes to product `id`. */
  function Contribution(m: Movement, id: int): int
  {
    if m.productId == id then Effect(m.kind, m.amount) else 0
  }

  /** The net effect of the log on product `id`, applied in insertion order from 0. */
  function LedgerSum(log: seq<Movement>, id: int): int
  {
    if log == [] then 0 else Contribution(log[0], id) + LedgerSum(log[1..], id)
  }

  /** Appending one row changes product `id`'s sum by that row's contribution only. */
  lemma {:induction false} LedgerSumAppend(log: seq<Movement>, m: Movement, id: int)
    ensures LedgerSum(log + [m], id) == LedgerSum(log, id) + Contribution(m, id)
  {
    if log == [] {
      assert [] + [m] == [m];
    } else {
      assert (log + [m])[1..] == log[1..] + [m];
      LedgerSumAppend(log[1..], m, id);
    }
  }

  /** A product that no row mentions has sum 0. */
  lemma {:induction false} LedgerSumUnreferenced(log: seq<Movement>, id: int)
    requires forall k :: 0 <= k < |log| ==> log[k].productId != id
    ensures LedgerSum(log, id) == 0
  {
    if log != [] {
      LedgerSumUnreferenced(log[1..], id);
    }
  }
}
