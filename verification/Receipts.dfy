/** The receipt a batch is packed from. */
module Receipts {
  import opened Hex

  datatype Receipt = Receipt(receiptHash: string, payer: string, payee: string, amountMinor: int)

  /** The same receipt with its hash and addresses in lower case. */
  function LowerReceipt(r: Receipt): Receipt {
    Receipt(Lower(r.receiptHash), Lower(r.payer), Lower(r.payee), r.amountMinor)
  }

  function LowerReceipts(rs: seq<Receipt>): (lowered: seq<Receipt>)
    ensures |lowered| == |rs|
    ensures forall i | 0 <= i < |rs| :: lowered[i] == LowerReceipt(rs[i])
  {
    seq(|rs|, i requires 0 <= i < |rs| => LowerReceipt(rs[i]))
  }

  lemma LowerCons(rs: seq<Receipt>)
    requires |rs| > 0
    ensures LowerReceipts(rs) == [LowerReceipt(rs[0])] + LowerReceipts(rs[1..])
  {
  }
}
