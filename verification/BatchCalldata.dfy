/** The packer and the decoder of compact batches as they run: a growing dictionary, a moving cursor. */
module BatchCalldata {
  import opened Base
  import opened Digits
  import opened Hex
  import opened Receipts
  import opened CompactCodec
  import Merkle

  datatype CompactBatch = CompactBatch(blob: string, root: string, count: nat, bytes: nat)

  /** `addressIndex`: a Map from key to index whose keys stay in insertion order. */
  class AddressDictionary {
    var index: map<string, nat>
    var keys: seq<string>

    ghost predicate Valid()
      reads this
    {
      && (forall k :: k in index <==> k in keys)
      && (forall k | k in index :: index[k] == IndexOf(keys, k))
    }

    constructor ()
      ensures Valid() && keys == []
    {
      index := map[];
      keys := [];
    }

    /** `indexOf`: the index of an address, given out on its first appearance. */
    method Lookup(address: string, bad: PackError) returns (r: Result<nat, PackError>)
      requires Valid()
      modifies this
      ensures Valid()
      ensures match Intern(old(keys), address, bad)
              case Ok(grown) => keys == grown && r == Ok(IndexOf(grown, Key(address)))
              case Err(e) => keys == old(keys) && r == Err(e)
    {
      if !IsHex(address, 40) {
        return Err(bad);
      }
      var key := Lower(address[2..]);
      if key in index {
        return Ok(index[key]);
      }
      if |keys| >= MAX_ADDRESSES {
        return Err(TooManyAddresses);
      }
      FreshIndex(keys, key);
      forall k | k in keys
        ensures IndexOf(keys + [key], k) == IndexOf(keys, k)
      {
        IndexIsStable(keys, keys + [key], k);
      }
      index := index[key := |keys|];
      keys := keys + [key];
      return Ok(index[key]);
    }
  }

  lemma {:induction false} FreshIndex(keys: seq<string>, key: string)
    requires key !in keys
    ensures IndexOf(keys + [key], key) == |keys|
  {
    if |keys| > 0 {
      assert (keys + [key])[1..] == keys[1..] + [key];
      FreshIndex(keys[1..], key);
    }
  }

  lemma {:induction false} FirstFailureDecides(rs: seq<Receipt>, i: nat)
    requires i <= |rs| && Dictionary(rs[..i]).Err?
    ensures Dictionary(rs) == Dictionary(rs[..i])
  {
    if i == |rs| {
      assert rs[..i] == rs;
    } else {
      var before := rs[..|rs| - 1];
      assert before[..i] == rs[..i];
      FirstFailureDecides(before, i);
    }
  }

  lemma RecordsGrow(keys: seq<string>, more: seq<string>, rs: seq<Receipt>, r: Receipt)
    requires keys <= more && CoversAll(keys, rs) && CoversAll(more, rs + [r]) && Covers(more, r)
    ensures Records(more, rs + [r]) == Records(keys, rs) + [ReceiptHex(more, r)]
  {
    forall i | 0 <= i < |rs|
      ensures Records(more, rs + [r])[i] == Records(keys, rs)[i]
    {
      assert Covers(more, (rs + [r])[i]);
      RecordIsStable(keys, more, rs[i]);
    }
  }

  /** The body of the packing loop: one receipt's checks, its indexes and its record. */
  method PackRecord(addressIndex: AddressDictionary, receipt: Receipt) returns (record: Result<string, PackError>)
    requires addressIndex.Valid() && Distinct(addressIndex.keys) && AreKeys(addressIndex.keys)
    requires |addressIndex.keys| <= MAX_ADDRESSES
    modifies addressIndex
    ensures addressIndex.Valid()
    ensures match AddReceipt(old(addressIndex.keys), receipt)
            case Ok(grown) =>
              addressIndex.keys == grown && Covers(grown, receipt) && record == Ok(ReceiptHex(grown, receipt))
            case Err(e) => record == Err(e)
  {
    ghost var keys := addressIndex.keys;
    if !IsHex(receipt.receiptHash, 64) {
      return Err(BadReceiptHash);
    }
    if receipt.amountMinor < 0 || receipt.amountMinor > MAX_UINT256 {
      return Err(AmountOutOfRange);
    }
    InternGrows(keys, receipt.payer, BadPayer);
    var payer := addressIndex.Lookup(receipt.payer, BadPayer);
    if payer.Err? {
      return Err(payer.error);
    }
    ghost var withPayer := addressIndex.keys;
    InternGrows(withPayer, receipt.payee, BadPayee);
    var payee := addressIndex.Lookup(receipt.payee, BadPayee);
    if payee.Err? {
      return Err(payee.error);
    }
    IndexIsStable(withPayer, addressIndex.keys, Key(receipt.payer));
    var mantissa, exponent := ToScientific(receipt.amountMinor);
    var mantissaHex := if mantissa == 0 then "" else EvenHex(mantissa);
    return Ok(Lower(receipt.receiptHash[2..]) + (Byte(payer.value) + (Byte(payee.value)
    + (Byte(exponent) + (Byte(|mantissaHex| / 2) + mantissaHex)))));
  }

  method PackReceiptsCompact(keccak: Merkle.Keccak, receipts: seq<Receipt>)
    returns (batch: Result<CompactBatch, PackError>)
    ensures match Pack(receipts)
            case Err(e) => batch == Err(e)
            case Ok(blob) =>
              batch.Ok? && batch.value.blob == blob && batch.value.count == |receipts| &&
              batch.value.bytes == (|blob| - 2) / 2 &&
              Merkle.RootOf(keccak, HashesOf(receipts)) == Ok(batch.value.root)
  {
    if |receipts| > MAX_RECEIPTS {
      return Err(TooManyReceipts);
    }
    var addressIndex := new AddressDictionary();
    var body: seq<string> := [];
    var i := 0;
    assert receipts[..0] == [];
    while i < |receipts|
      invariant 0 <= i <= |receipts| <= MAX_RECEIPTS
      invariant fresh(addressIndex) && addressIndex.Valid()
      invariant Dictionary(receipts[..i]) == Ok(addressIndex.keys)
      invariant CoversAll(addressIndex.keys, receipts[..i])
      invariant body == Records(addressIndex.keys, receipts[..i])
    {
      ghost var keys := addressIndex.keys;
      Extend(receipts, i, keys);
      var record := PackRecord(addressIndex, receipts[i]);
      if record.Err? {
        return Err(record.error);
      }
      RecordsGrow(keys, addressIndex.keys, receipts[..i], receipts[i]);
      body := body + [record.value];
      i := i + 1;
    }
    assert receipts[..i] == receipts;
    var header := Byte(COMPACT_VERSION) + (Byte(|addressIndex.keys|) + (Concat(addressIndex.keys)
    + PadStart(Hexadecimal.Print(|receipts|), 4)));
    var blob := "0x" + (header + Concat(body));
    var root := Merkle.MerkleRoot(keccak, HashesOf(receipts));
    assert Merkle.AreHashes(HashesOf(receipts)) by {
      forall k | 0 <= k < |receipts|
        ensures IsHex(HashesOf(receipts)[k], 64)
      {
        assert Covers(addressIndex.keys, receipts[k]);
      }
    }
    return Ok(CompactBatch(blob, root.value, |receipts|, (|blob| - 2) / 2));
  }

  /** One step of the loop seen from the dictionary: what the next receipt does to it. */
  lemma Extend(receipts: seq<Receipt>, i: nat, keys: seq<string>)
    requires i < |receipts| <= MAX_RECEIPTS && Dictionary(receipts[..i]) == Ok(keys)
    ensures receipts[..i + 1] == receipts[..i] + [receipts[i]]
    ensures Distinct(keys) && AreKeys(keys) && |keys| <= MAX_ADDRESSES
    ensures Dictionary(receipts[..i + 1]) == AddReceipt(keys, receipts[i])
    ensures var r := AddReceipt(keys, receipts[i]);
            if r.Ok? then keys <= r.value && CoversAll(r.value, receipts[..i + 1]) && Covers(r.value, receipts[i])
            else Pack(receipts) == Err(r.error)
  {
    assert receipts[..i + 1][..i] == receipts[..i];
    DictionaryCovers(receipts[..i]);
    AddReceiptGrows(keys, receipts[i]);
    DictionaryCovers(receipts[..i + 1]);
    if AddReceipt(keys, receipts[i]).Err? {
      FirstFailureDecides(receipts, i + 1);
    }
  }

  function HashesOf(receipts: seq<Receipt>): (hashes: seq<string>)
    ensures |hashes| == |receipts|
    ensures forall i | 0 <= i < |receipts| :: hashes[i] == receipts[i].receiptHash
  {
    seq(|receipts|, i requires 0 <= i < |receipts| => receipts[i].receiptHash)
  }

  // ---------------------------------------------------------------------------------------------
  // Decoding with a cursor
  // ---------------------------------------------------------------------------------------------

  class BlobReader {
    const hex: string
    var cursor: nat

    ghost predicate Valid()
      reads this
    {
      cursor <= |hex|
    }

    function Rest(): string
      requires Valid()
      reads this
    {
      hex[cursor..]
    }

    constructor (hex: string)
      ensures Valid() && Rest() == hex
    {
      this.hex := hex;
      cursor := 0;
    }

    /** `take`: the next bytes, or the throw that leaves the cursor where it was. */
    method Next(bytes: nat) returns (chunk: Result<string, UnpackError>)
      requires Valid()
      modifies this
      ensures Valid()
      ensures match Take(old(Rest()), bytes)
              case Ok((taken, rest)) => chunk == Ok(taken) && Rest() == rest
              case Err(e) => chunk == Err(e) && Rest() == old(Rest())
    {
      var end := cursor + bytes * 2;
      if end > |hex| {
        return Err(Truncated);
      }
      assert hex[cursor..end] == Rest()[..2 * bytes] && hex[end..] == Rest()[2 * bytes..];
      chunk := Ok(hex[cursor..end]);
      cursor := end;
    }

    method NextNumber(bytes: nat) returns (number: Result<nat, UnpackError>)
      requires Valid()
      modifies this
      ensures Valid()
      ensures match TakeNumber(old(Rest()), bytes)
              case Ok((taken, rest)) => number == Ok(taken) && Rest() == rest
              case Err(e) => number == Err(e)
    {
      var chunk := Next(bytes);
      if chunk.Err? {
        return Err(chunk.error);
      }
      return Ok(Hexadecimal.Parse(chunk.value));
    }

    method NextReceipt(addresses: seq<string>) returns (receipt: Result<Receipt, UnpackError>)
      requires Valid()
      modifies this
      ensures Valid()
      ensures match TakeReceipt(old(Rest()), addresses)
              case Ok((taken, rest)) => receipt == Ok(taken) && Rest() == rest
              case Err(e) => receipt == Err(e)
    {
      var hash := Next(32);
      if hash.Err? {
        return Err(hash.error);
      }
      var payer := NextNumber(1);
      if payer.Err? {
        return Err(payer.error);
      }
      if payer.value >= |addresses| {
        return Err(IndexOutOfRange);
      }
      var payee := NextNumber(1);
      if payee.Err? {
        return Err(payee.error);
      }
      if payee.value >= |addresses| {
        return Err(IndexOutOfRange);
      }
      var amount := NextAmount();
      if amount.Err? {
        return Err(amount.error);
      }
      return Ok(Receipt("0x" + hash.value, addresses[payer.value], addresses[payee.value], amount.value));
    }

    method NextAmount() returns (amount: Result<nat, UnpackError>)
      requires Valid()
      modifies this
      ensures Valid()
      ensures match TakeAmount(old(Rest()))
              case Ok((taken, rest)) => amount == Ok(taken) && Rest() == rest
              case Err(e) => amount == Err(e)
    {
      var exponent := NextNumber(1);
      if exponent.Err? {
        return Err(exponent.error);
      }
      var length := NextNumber(1);
      if length.Err? {
        return Err(length.error);
      }
      if length.value > 32 {
        return Err(MantissaTooLong);
      }
      var mantissa := Ok(0);
      if length.value != 0 {
        mantissa := NextNumber(length.value);
        if mantissa.Err? {
          return Err(mantissa.error);
        }
      }
      ScaleIsProduct(mantissa.value, exponent.value);
      var value := mantissa.value * Decimal.Pow(exponent.value);
      if value > MAX_UINT256 {
        return Err(AmountTooLarge);
      }
      return Ok(value);
    }
  }

  /** `items` were read one after the other, the reader standing at `marks[k]` before item `k`. */
  ghost predicate ReadAlong<T>(take: Take1<T>, items: seq<T>, marks: seq<string>) {
    && |marks| == |items| + 1
    && forall k | 0 <= k < |items| :: take(marks[k]) == Ok((items[k], marks[k + 1]))
  }

  lemma {:induction false} ReadAlongIsTakeMany<T>(take: Take1<T>, items: seq<T>, marks: seq<string>, count: nat)
    requires ReadAlong(take, items, marks) && |items| <= count
    ensures |items| == count ==> TakeMany(take, marks[0], count) == Ok((items, marks[count]))
    ensures |items| < count && take(marks[|items|]).Err? ==>
              TakeMany(take, marks[0], count) == Err(take(marks[|items|]).error)
    decreases |items|
  {
    if |items| > 0 {
      ReadAlongIsTakeMany(take, items[1..], marks[1..], count - 1);
      assert items == [items[0]] + items[1..];
    }
  }

  method ReadAddresses(reader: BlobReader, addressCount: nat) returns (addresses: Result<seq<string>, UnpackError>)
    requires reader.Valid()
    modifies reader
    ensures reader.Valid()
    ensures match TakeMany(NewAddress, old(reader.Rest()), addressCount)
            case Ok((taken, rest)) => addresses == Ok(taken) && reader.Rest() == rest
            case Err(e) => addresses == Err(e)
  {
    var list: seq<string> := [];
    ghost var marks := [reader.Rest()];
    var i := 0;
    while i < addressCount
      invariant 0 <= i <= addressCount && reader.Valid()
      invariant |list| == i && ReadAlong(NewAddress, list, marks)
      invariant marks[0] == old(reader.Rest()) && marks[i] == reader.Rest()
    {
      var chunk := reader.Next(20);
      if chunk.Err? {
        ReadAlongIsTakeMany(NewAddress, list, marks, addressCount);
        return Err(chunk.error);
      }
      list, marks := list + ["0x" + chunk.value], marks + [reader.Rest()];
      i := i + 1;
    }
    ReadAlongIsTakeMany(NewAddress, list, marks, addressCount);
    return Ok(list);
  }

  method ReadReceipts(reader: BlobReader, addresses: seq<string>, count: nat)
    returns (receipts: Result<seq<Receipt>, UnpackError>)
    requires reader.Valid()
    modifies reader
    ensures reader.Valid()
    ensures match TakeMany(ReceiptTaker(addresses), old(reader.Rest()), count)
            case Ok((taken, rest)) => receipts == Ok(taken) && reader.Rest() == rest
            case Err(e) => receipts == Err(e)
  {
    ghost var marks: seq<string>;
    receipts, marks := CollectReceipts(reader, addresses, count);
    if receipts.Ok? {
      ReadAlongIsTakeMany(ReceiptTaker(addresses), receipts.value, marks, count);
    }
  }

  method CollectReceipts(reader: BlobReader, addresses: seq<string>, count: nat)
    returns (receipts: Result<seq<Receipt>, UnpackError>, ghost marks: seq<string>)
    requires reader.Valid()
    modifies reader
    ensures reader.Valid()
    ensures |marks| > 0 && marks[0] == old(reader.Rest())
    ensures match receipts
            case Ok(list) =>
              |list| == count && ReadAlong(ReceiptTaker(addresses), list, marks) && marks[count] == reader.Rest()
            case Err(e) => TakeMany(ReceiptTaker(addresses), marks[0], count) == Err(e)
  {
    var list: seq<Receipt> := [];
    marks := [reader.Rest()];
    var i := 0;
    while i < count
      invariant 0 <= i <= count && reader.Valid()
      invariant |list| == i && ReadAlong(ReceiptTaker(addresses), list, marks)
      invariant marks[0] == old(reader.Rest()) && marks[i] == reader.Rest()
    {
      var receipt := reader.NextReceipt(addresses);
      if receipt.Err? {
        ReadAlongIsTakeMany(ReceiptTaker(addresses), list, marks, count);
        return Err(receipt.error), marks;
      }
      list, marks := list + [receipt.value], marks + [reader.Rest()];
      i := i + 1;
    }
    return Ok(list), marks;
  }

  method UnpackReceiptsCompact(blob: string) returns (receipts: Result<seq<Receipt>, UnpackError>)
    ensures receipts == Unpack(blob)
  {
    if !IsBlob(blob) {
      return Err(InvalidBlob);
    }
    var reader := new BlobReader(Lower(blob[2..]));
    var version := reader.NextNumber(1);
    if version.Err? {
      return Err(version.error);
    }
    if version.value != COMPACT_VERSION {
      return Err(UnsupportedVersion);
    }
    var addressCount := reader.NextNumber(1);
    if addressCount.Err? {
      return Err(addressCount.error);
    }
    var addresses := ReadAddresses(reader, addressCount.value);
    if addresses.Err? {
      return Err(addresses.error);
    }
    var count := reader.NextNumber(2);
    if count.Err? {
      return Err(count.error);
    }
    receipts := ReadReceipts(reader, addresses.value, count.value);
    if receipts.Ok? && reader.cursor != |reader.hex| {
      return Err(TrailingBytes);
    }
  }
}
