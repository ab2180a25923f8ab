/**
 Which blobs unpackReceiptsCompact takes, and what they stand for: any text of the layout, whether or not
 the packer would have written it.
 */
module CompactReading {
  import opened Base
  import opened Digits
  import opened Hex
  import opened Receipts
  import opened CompactCodec
  import opened CompactTheorems
  import CompactAcceptance

  predicate NamesPlace(digits: string, keys: seq<string>, address: string) {
    Hexadecimal.Parse(digits) < |keys| && address == "0x" + keys[Hexadecimal.Parse(digits)]
  }

  /**
   A record and the receipt it stands for: 32 bytes of hash, a byte each for the places of payer and
   payee, the exponent and the length of the mantissa, and the mantissa.
   */
  predicate StandsFor(record: string, keys: seq<string>, r: Receipt) {
    && |record| >= 72
    && r.receiptHash == "0x" + record[..64]
    && NamesPlace(record[64..66], keys, r.payer) && NamesPlace(record[66..68], keys, r.payee)
    && Hexadecimal.Parse(record[70..72]) <= 32 && |record| == 72 + 2 * Hexadecimal.Parse(record[70..72])
    && r.amountMinor == Hexadecimal.Parse(record[72..]) * Decimal.Pow(Hexadecimal.Parse(record[68..70]))
    && CompactAcceptance.IsUint256(r.amountMinor)
  }

  type Stands<!T> = (string, T) -> bool

  /** The reader takes a first part that stands for the item, and leaves the rest. */
  ghost predicate ReadsPart<T(!new)>(take: Take1<T>, stands: Stands<T>) {
    forall hex, item, rest ::
      take(hex) == Ok((item, rest)) <==> exists n :: IsPart(stands, hex, item, rest, n)
  }

  predicate IsPart<T>(stands: Stands<T>, hex: string, item: T, rest: string, n: nat) {
    n <= |hex| && rest == hex[n..] && stands(hex[..n], item)
  }

  predicate AllStand<T>(stands: Stands<T>, parts: seq<string>, items: seq<T>) {
    |parts| == |items| && forall i | 0 <= i < |parts| :: stands(parts[i], items[i])
  }

  /** Items read one after the other come from parts that stand for them. */
  lemma {:induction false} PartsRead<T(!new)>(take: Take1<T>, stands: Stands<T>, hex: string, count: nat,
      items: seq<T>, rest: string)
    returns (parts: seq<string>)
    requires ReadsPart(take, stands) && TakeMany(take, hex, count) == Ok((items, rest))
    ensures AllStand(stands, parts, items) && |items| == count && hex == Concat(parts) + rest
    decreases count
  {
    if count == 0 {
      parts := [];
    } else {
      var (item, left) := take(hex).value;
      var n: nat :| IsPart(stands, hex, item, left, n);
      var others := PartsRead(take, stands, left, count - 1, items[1..], rest);
      ConcatCons(hex[..n], others);
      parts := [hex[..n]] + others;
      assert hex == hex[..n] + left;
    }
  }

  lemma {:induction false} PartsReadBack<T(!new)>(take: Take1<T>, stands: Stands<T>, parts: seq<string>,
      items: seq<T>, rest: string)
    requires ReadsPart(take, stands) && AllStand(stands, parts, items)
    ensures TakeMany(take, Concat(parts) + rest, |items|) == Ok((items, rest))
  {
    if |parts| == 0 {
      assert Concat(parts) + rest == rest;
    } else {
      var hex, left := Concat(parts) + rest, Concat(parts[1..]) + rest;
      assert hex == parts[0] + left;
      assert hex[..|parts[0]|] == parts[0] && hex[|parts[0]|..] == left;
      assert IsPart(stands, hex, items[0], left, |parts[0]|);
      assert take(hex) == Ok((items[0], left));
      PartsReadBack(take, stands, parts[1..], items[1..], rest);
      assert items == [items[0]] + items[1..];
    }
  }

  // ---------------------------------------------------------------------------------------------
  // The two readers
  // ---------------------------------------------------------------------------------------------

  function AddressStands(): Stands<string> {
    (part, address) => |part| == 40 && address == "0x" + part
  }

  function RecordStands(keys: seq<string>): Stands<Receipt> {
    (part, r) => StandsFor(part, keys, r)
  }

  lemma AddressReads()
    ensures ReadsPart(NewAddress, AddressStands())
  {
    forall hex, item, rest
      ensures NewAddress(hex) == Ok((item, rest)) <==> exists n :: IsPart(AddressStands(), hex, item, rest, n)
    {
      if NewAddress(hex) == Ok((item, rest)) {
        assert IsPart(AddressStands(), hex, item, rest, 40);
      }
    }
  }

  /** The fields of a record that starts the text, as the reader finds them. */
  lemma FieldsOf(hex: string)
    requires |hex| >= 72
    ensures hex[64..][..2] == hex[64..66] && hex[64..][2..][..2] == hex[66..68]
    ensures hex[64..][2..][2..][..2] == hex[68..70] && hex[64..][2..][2..][2..][..2] == hex[70..72]
    ensures hex[64..][2..][2..][2..][2..] == hex[72..]
  {
  }

  lemma ShortIsTruncated(hex: string, keys: seq<string>)
    requires |hex| < 72
    ensures TakeReceipt(hex, AddressesOf(keys)).Err?
  {
  }

  lemma FixedFields(hex: string, keys: seq<string>, r: Receipt, rest: string)
    requires |hex| >= 72
    ensures TakeReceipt(hex, AddressesOf(keys)) == Ok((r, rest)) <==>
              && r.receiptHash == "0x" + hex[..64]
              && NamesPlace(hex[64..66], keys, r.payer) && NamesPlace(hex[66..68], keys, r.payee)
              && TakeAmount(hex[68..]) == Ok((r.amountMinor, rest))
  {
    FieldsOf(hex);
    assert hex[64..][2..][2..] == hex[68..];
  }

  lemma AmountFields(hex: string, amount: int, rest: string)
    requires |hex| >= 72
    ensures TakeAmount(hex[68..]) == Ok((amount, rest)) <==>
              var n := 72 + 2 * Hexadecimal.Parse(hex[70..72]);
              && Hexadecimal.Parse(hex[70..72]) <= 32 && n <= |hex| && rest == hex[n..]
              && amount == Hexadecimal.Parse(hex[72..n]) * Decimal.Pow(Hexadecimal.Parse(hex[68..70]))
              && CompactAcceptance.IsUint256(amount)
  {
    var tail, length := hex[68..], Hexadecimal.Parse(hex[70..72]);
    assert tail[..2] == hex[68..70] && tail[2..][..2] == hex[70..72] && tail[2..][2..] == hex[72..];
    if length <= 32 && 72 + 2 * length <= |hex| {
      var n := 72 + 2 * length;
      assert hex[72..][..2 * length] == hex[72..n] && hex[72..][2 * length..] == hex[n..];
      ScaleIsProduct(Hexadecimal.Parse(hex[72..n]), Hexadecimal.Parse(hex[68..70]));
    }
  }

  lemma ReceiptReads(keys: seq<string>)
    ensures ReadsPart(ReceiptTaker(AddressesOf(keys)), RecordStands(keys))
  {
    forall hex, r, rest
      ensures ReceiptTaker(AddressesOf(keys))(hex) == Ok((r, rest))
              <==> exists n :: IsPart(RecordStands(keys), hex, r, rest, n)
    {
      ReceiptIff(hex, keys, r, rest);
    }
  }

  lemma ReceiptIff(hex: string, keys: seq<string>, r: Receipt, rest: string)
    ensures TakeReceipt(hex, AddressesOf(keys)) == Ok((r, rest))
            <==> exists n :: IsPart(RecordStands(keys), hex, r, rest, n)
  {
    hide TakeReceipt, TakeAmount, NamesPlace, CompactAcceptance.IsUint256;
    if |hex| < 72 {
      ShortIsTruncated(hex, keys);
      return;
    }
    FixedFields(hex, keys, r, rest);
    AmountFields(hex, r.amountMinor, rest);
    var n := 72 + 2 * Hexadecimal.Parse(hex[70..72]);
    if n <= |hex| {
      SameFields(hex, n);
    }
    if TakeReceipt(hex, AddressesOf(keys)) == Ok((r, rest)) {
      assert IsPart(RecordStands(keys), hex, r, rest, n);
    }
    if m: nat :| IsPart(RecordStands(keys), hex, r, rest, m) {
      SameFields(hex, m);
    }
  }

  lemma SameFields(hex: string, n: nat)
    requires 72 <= n <= |hex|
    ensures var part := hex[..n];
            && part[..64] == hex[..64] && part[64..66] == hex[64..66] && part[66..68] == hex[66..68]
            && part[68..70] == hex[68..70] && part[70..72] == hex[70..72] && part[72..] == hex[72..n]
  {
  }

  // ---------------------------------------------------------------------------------------------
  // A whole blob
  // ---------------------------------------------------------------------------------------------

  /** Version 2, the addresses, and a record for each receipt, each list after its length. */
  ghost predicate IsLayout(hex: string, rs: seq<Receipt>, version: string, addressCount: string,
                           keys: seq<string>, count: string, records: seq<string>)
  {
    && |version| == 2 && Hexadecimal.Parse(version) == 2
    && |addressCount| == 2 && Hexadecimal.Parse(addressCount) == |keys|
    && (forall i | 0 <= i < |keys| :: |keys[i]| == 40)
    && |count| == 4 && Hexadecimal.Parse(count) == |rs|
    && |records| == |rs| && (forall i | 0 <= i < |rs| :: StandsFor(records[i], keys, rs[i]))
    && hex == version + (addressCount + (Concat(keys) + (count + Concat(records))))
  }

  lemma TakeIff(hex: string, bytes: nat, chunk: string, rest: string)
    ensures Take(hex, bytes) == Ok((chunk, rest)) <==> |chunk| == 2 * bytes && hex == chunk + rest
  {
    if Take(hex, bytes) == Ok((chunk, rest)) {
      assert hex == hex[..2 * bytes] + hex[2 * bytes..];
    }
    if |chunk| == 2 * bytes && hex == chunk + rest {
      TakeConcat(chunk, rest, bytes);
    }
  }

  lemma LayoutReads(hex: string, rs: seq<Receipt>, version: string, addressCount: string, keys: seq<string>,
      count: string, records: seq<string>)
    requires IsLayout(hex, rs, version, addressCount, keys, count, records)
    ensures UnpackHex(hex) == Ok(rs)
  {
    hide StandsFor, Concat;
    var afterCount := Concat(records);
    var afterAddresses := count + afterCount;
    var afterAddressCount := Concat(keys) + afterAddresses;
    TakeConcat(version, addressCount + afterAddressCount, 1);
    TakeConcat(addressCount, afterAddressCount, 1);
    AddressReads();
    assert AllStand(AddressStands(), keys, AddressesOf(keys));
    PartsReadBack(NewAddress, AddressStands(), keys, AddressesOf(keys), afterAddresses);
    TakeConcat(count, afterCount, 2);
    ReceiptReads(keys);
    assert AllStand(RecordStands(keys), records, rs);
    PartsReadBack(ReceiptTaker(AddressesOf(keys)), RecordStands(keys), records, rs, "");
    assert afterCount + "" == afterCount;
  }

  lemma LayoutFound(hex: string, rs: seq<Receipt>)
    returns (version: string, addressCount: string, keys: seq<string>, count: string, records: seq<string>)
    requires UnpackHex(hex) == Ok(rs)
    ensures IsLayout(hex, rs, version, addressCount, keys, count, records)
  {
    hide StandsFor, Concat;
    var (v, afterVersion) := Take(hex, 1).value;
    TakeIff(hex, 1, v, afterVersion);
    var (a, afterAddressCount) := Take(afterVersion, 1).value;
    TakeIff(afterVersion, 1, a, afterAddressCount);
    var many := Hexadecimal.Parse(a);
    var (addresses, afterAddresses) := TakeMany(NewAddress, afterAddressCount, many).value;
    AddressReads();
    keys := PartsRead(NewAddress, AddressStands(), afterAddressCount, many, addresses, afterAddresses);
    assert addresses == AddressesOf(keys);
    var (c, afterCount) := Take(afterAddresses, 2).value;
    TakeIff(afterAddresses, 2, c, afterCount);
    ReceiptReads(keys);
    records := PartsRead(ReceiptTaker(addresses), RecordStands(keys), afterCount, Hexadecimal.Parse(c), rs, "");
    version, addressCount, count := v, a, c;
    assert Concat(records) + "" == Concat(records);
  }

  /** A blob is taken, and stands for these receipts, exactly when its lower-cased digits have the layout. */
  lemma UnpackIff(blob: string, rs: seq<Receipt>)
    ensures Unpack(blob) == Ok(rs) <==>
              && |blob| > 2 && |blob| % 2 == 0 && MatchesHex(blob, |blob| - 2)
              && exists version, addressCount, keys, count, records ::
                   IsLayout(Lower(blob[2..]), rs, version, addressCount, keys, count, records)
  {
    if |blob| > 2 {
      MatchesHexIff(blob, |blob| - 2);
    }
    if Unpack(blob) == Ok(rs) {
      var version, addressCount, keys, count, records := LayoutFound(Lower(blob[2..]), rs);
    }
    if IsBlob(blob) {
      if version, addressCount, keys, count, records :|
        IsLayout(Lower(blob[2..]), rs, version, addressCount, keys, count, records)
      {
        LayoutReads(Lower(blob[2..]), rs, version, addressCount, keys, count, records);
      }
    }
  }
}
