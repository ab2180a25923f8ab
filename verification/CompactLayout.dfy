/** The bytes of a compact blob, field by field, as a reader on the chain finds them. */
module CompactLayout {
  import opened Base
  import opened Digits
  import opened Hex
  import opened Receipts
  import opened CompactCodec
  import opened CompactTheorems

  /** The number in exactly so many lower-case hex digits. */
  predicate IsNumber(text: string, digits: nat, n: nat) {
    |text| == digits && Hexadecimal.IsNumeral(text) && Hexadecimal.Parse(text) == n
  }

  predicate HaveAddresses(rs: seq<Receipt>) {
    forall i | 0 <= i < |rs| :: |rs[i].payer| >= 2 && |rs[i].payee| >= 2
  }

  /** Payer and payee of each receipt in turn, in lower case and without prefix. */
  function AddressList(rs: seq<Receipt>): seq<string>
    requires HaveAddresses(rs)
  {
    if |rs| == 0 then []
    else
      var last := rs[|rs| - 1];
      AddressList(rs[..|rs| - 1]) + [Lower(last.payer)[2..], Lower(last.payee)[2..]]
  }

  /** Each text once, in the order of its first occurrence. */
  function FirstSeen(texts: seq<string>): seq<string> {
    if |texts| == 0 then []
    else
      var front, last := FirstSeen(texts[..|texts| - 1]), texts[|texts| - 1];
      if last in front then front else front + [last]
  }

  /**
   32 bytes of hash, a byte each for the places of payer and payee in the address table, the exponent and
   the length of the mantissa, and the mantissa.
   */
  predicate IsRecord(record: string, addresses: seq<string>, r: Receipt) {
    && |record| >= 72 && Hexadecimal.IsNumeral(record)
    && "0x" + record[..64] == Lower(r.receiptHash)
    && IsPlaceOf(record[64..66], addresses, r.payer)
    && IsPlaceOf(record[66..68], addresses, r.payee)
    && |record| == 72 + 2 * Hexadecimal.Parse(record[70..72])
    && Hexadecimal.Parse(record[72..]) * Decimal.Pow(Hexadecimal.Parse(record[68..70])) == r.amountMinor
  }

  predicate IsPlaceOf(digits: string, addresses: seq<string>, address: string) {
    && Hexadecimal.Parse(digits) < |addresses|
    && "0x" + addresses[Hexadecimal.Parse(digits)] == Lower(address)
  }

  lemma RecordFields(hash: string, payer: string, payee: string, exponent: string, length: string, mantissa: string)
    requires |hash| == 64 && |payer| == |payee| == |exponent| == |length| == 2
    ensures var record := hash + (payer + (payee + (exponent + (length + mantissa))));
            && |record| == 72 + |mantissa|
            && record[..64] == hash && record[64..66] == payer && record[66..68] == payee
            && record[68..70] == exponent && record[70..72] == length && record[72..] == mantissa
  {
  }

  lemma PlaceOf(keys: seq<string>, address: string)
    requires IsHex(address, 40) && Key(address) in keys && |keys| <= 255
    ensures var digits := Byte(IndexOf(keys, Key(address))); |digits| == 2 && IsPlaceOf(digits, keys, address)
  {
    ByteReads(IndexOf(keys, Key(address)));
    LowerHex(address, 40);
  }

  lemma RecordIs(keys: seq<string>, r: Receipt)
    requires Covers(keys, r) && |keys| <= 255
    ensures IsRecord(ReceiptHex(keys, r), keys, r)
  {
    var m := Mantissa(r.amountMinor);
    var mantissa := MantissaHex(m);
    LowerHex(r.receiptHash, 64);
    PlaceOf(keys, r.payer);
    PlaceOf(keys, r.payee);
    ExponentBound(r.amountMinor);
    ByteReads(Exponent(r.amountMinor));
    MantissaReads(m);
    ByteReads(|mantissa| / 2);
    ScientificValue(r.amountMinor);
    ScaleIsProduct(m, Exponent(r.amountMinor));
    ReceiptHexIsHex(keys, r);
    RecordFields(Key(r.receiptHash), Byte(IndexOf(keys, Key(r.payer))), Byte(IndexOf(keys, Key(r.payee))),
                 Byte(Exponent(r.amountMinor)), Byte(|mantissa| / 2), mantissa);
  }

  lemma FirstSeenSnoc(texts: seq<string>, text: string)
    ensures FirstSeen(texts + [text])
         == if text in FirstSeen(texts) then FirstSeen(texts) else FirstSeen(texts) + [text]
  {
    assert (texts + [text])[..|texts|] == texts;
  }

  lemma InternSeen(list: seq<string>, address: string, bad: PackError)
    requires Intern(FirstSeen(list), address, bad).Ok?
    ensures |address| >= 2
    ensures Intern(FirstSeen(list), address, bad) == Ok(FirstSeen(list + [Lower(address)[2..]]))
  {
    LowerHex(address, 40);
    FirstSeenSnoc(list, Lower(address)[2..]);
  }

  /** The address table has each address once, in the order in which the packer first meets it. */
  lemma {:induction false} TableIsFirstSeen(rs: seq<Receipt>)
    requires Dictionary(rs).Ok?
    ensures CoversAll(Dictionary(rs).value, rs) && HaveAddresses(rs)
    ensures Dictionary(rs).value == FirstSeen(AddressList(rs))
  {
    DictionaryCovers(rs);
    if |rs| > 0 {
      var front, last := rs[..|rs| - 1], rs[|rs| - 1];
      TableIsFirstSeen(front);
      hide Intern, FirstSeen, CoversAll;
      var list := AddressList(front);
      InternSeen(list, last.payer, BadPayer);
      InternSeen(list + [Lower(last.payer)[2..]], last.payee, BadPayee);
      assert AddressList(rs) == list + [Lower(last.payer)[2..]] + [Lower(last.payee)[2..]];
    }
  }

  /**
   A packed blob is version 2, the number of addresses, the addresses, the number of receipts, and a record
   for each receipt in order.
   */
  lemma BlobLayout(rs: seq<Receipt>)
    returns (addresses: seq<string>, addressCount: string, count: string, records: seq<string>)
    requires Pack(rs).Ok?
    ensures HaveAddresses(rs) && addresses == FirstSeen(AddressList(rs))
    ensures IsNumber(addressCount, 2, |addresses|) && IsNumber(count, 4, |rs|)
    ensures |records| == |rs| && forall i | 0 <= i < |rs| :: IsRecord(records[i], addresses, rs[i])
    ensures Pack(rs).value == "0x02" + addressCount + Concat(addresses) + count + Concat(records)
  {
    hide IsRecord, FirstSeen, Concat, AddressList, HaveAddresses, Covers;
    DictionaryCovers(rs);
    TableIsFirstSeen(rs);
    addresses := Dictionary(rs).value;
    addressCount, count := Byte(|addresses|), PadStart(Hexadecimal.Print(|rs|), 4);
    records := Records(addresses, rs);
    ByteReads(|addresses|);
    CountReads(|rs|);
    VersionByte();
    RecordsAre(addresses, rs);
    Regroup(addressCount, Concat(addresses), count, Concat(records));
  }

  lemma RecordsAre(keys: seq<string>, rs: seq<Receipt>)
    requires CoversAll(keys, rs) && |keys| <= 255
    ensures forall i | 0 <= i < |rs| :: IsRecord(Records(keys, rs)[i], keys, rs[i])
  {
    forall i | 0 <= i < |rs|
      ensures IsRecord(Records(keys, rs)[i], keys, rs[i])
    {
      RecordIs(keys, rs[i]);
    }
  }

  lemma Regroup(a: string, b: string, c: string, d: string)
    ensures "0x" + (("02" + (a + (b + c))) + d) == "0x02" + a + b + c + d
  {
  }

  lemma VersionByte()
    ensures Byte(2) == "02"
  {
    assert Hexadecimal.Print(2) == [Digit(2)] == "2";
    assert Zeros(1) == "0";
  }
}
