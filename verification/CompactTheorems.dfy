/**
 What the compact blob is for: unpacking undoes packing, no accepted blob continues another, and
 the packer emits the shortest blob the decoder accepts for its receipts.
 */
module CompactTheorems {
  import opened Base
  import opened Digits
  import opened Hex
  import opened Receipts
  import opened CompactCodec

  // ---------------------------------------------------------------------------------------------
  // Round trip
  // ---------------------------------------------------------------------------------------------

  lemma TakeConcat(a: string, b: string, bytes: nat)
    requires |a| == 2 * bytes
    ensures Take(a + b, bytes) == Ok((a, b))
  {
    assert (a + b)[..2 * bytes] == a && (a + b)[2 * bytes..] == b;
  }

  lemma TakeByte(value: nat, rest: string)
    requires value < 256
    ensures TakeNumber(Byte(value) + rest, 1) == Ok((value, rest))
  {
    ByteReads(value);
    TakeConcat(Byte(value), rest, 1);
  }

  function AddressesOf(keys: seq<string>): (addresses: seq<string>)
    ensures |addresses| == |keys|
    ensures forall i | 0 <= i < |keys| :: addresses[i] == "0x" + keys[i]
  {
    seq(|keys|, i requires 0 <= i < |keys| => "0x" + keys[i])
  }

  lemma AddressRoundTrip(keys: seq<string>, address: string, rest: string)
    requires IsHex(address, 40) && Key(address) in keys && |keys| <= MAX_ADDRESSES
    ensures TakeAddress(Byte(IndexOf(keys, Key(address))) + rest, AddressesOf(keys)) == Ok((Lower(address), rest))
  {
    TakeByte(IndexOf(keys, Key(address)), rest);
    LowerHex(address, 40);
  }

  lemma AmountRoundTrip(amount: nat, rest: string)
    requires amount <= MAX_UINT256
    ensures TakeAmount(AmountHex(amount) + rest) == Ok((amount, rest))
  {
    var m := Mantissa(amount);
    var hex := MantissaHex(m);
    ExponentBound(amount);
    ScientificValue(amount);
    MantissaReads(m);
    assert AmountHex(amount) + rest == Byte(Exponent(amount)) + (Byte(|hex| / 2) + (hex + rest));
    TakeByte(Exponent(amount), Byte(|hex| / 2) + (hex + rest));
    TakeByte(|hex| / 2, hex + rest);
    TakeConcat(hex, rest, |hex| / 2);
  }

  lemma ReceiptRoundTrip(keys: seq<string>, r: Receipt, rest: string)
    requires Covers(keys, r) && |keys| <= MAX_ADDRESSES
    ensures TakeReceipt(ReceiptHex(keys, r) + rest, AddressesOf(keys)) == Ok((LowerReceipt(r), rest))
  {
    var payer, payee := Byte(IndexOf(keys, Key(r.payer))), Byte(IndexOf(keys, Key(r.payee)));
    var afterPayee := AmountHex(r.amountMinor) + rest;
    LowerHex(r.receiptHash, 64);
    assert ReceiptHex(keys, r) + rest == Key(r.receiptHash) + (payer + (payee + afterPayee));
    TakeConcat(Key(r.receiptHash), payer + (payee + afterPayee), 32);
    AddressRoundTrip(keys, r.payer, payee + afterPayee);
    AddressRoundTrip(keys, r.payee, afterPayee);
    AmountRoundTrip(r.amountMinor, rest);
  }

  /** If every part reads back as its item, the parts joined read back as the items. */
  lemma {:induction false} ManyRoundTrip<T>(take: Take1<T>, parts: seq<string>, items: seq<T>, rest: string)
    requires |parts| == |items|
    requires forall i, tail | 0 <= i < |parts| :: take(parts[i] + tail) == Ok((items[i], tail))
    ensures TakeMany(take, Concat(parts) + rest, |parts|) == Ok((items, rest))
  {
    if |parts| == 0 {
      assert Concat(parts) + rest == rest;
    } else {
      assert Concat(parts) + rest == parts[0] + (Concat(parts[1..]) + rest);
      ManyRoundTrip(take, parts[1..], items[1..], rest);
      assert items == [items[0]] + items[1..];
    }
  }

  lemma RecordRoundTrip(keys: seq<string>, rs: seq<Receipt>, i: nat, tail: string)
    requires CoversAll(keys, rs) && |keys| <= MAX_ADDRESSES && i < |rs|
    ensures ReceiptTaker(AddressesOf(keys))(Records(keys, rs)[i] + tail) == Ok((LowerReceipts(rs)[i], tail))
  {
    ReceiptRoundTrip(keys, rs[i], tail);
  }

  lemma BodyRoundTrip(keys: seq<string>, rs: seq<Receipt>)
    requires CoversAll(keys, rs) && |keys| <= MAX_ADDRESSES
    ensures TakeMany(ReceiptTaker(AddressesOf(keys)), Body(keys, rs), |rs|) == Ok((LowerReceipts(rs), ""))
  {
    var records := Records(keys, rs);
    forall i, tail | 0 <= i < |rs|
      ensures ReceiptTaker(AddressesOf(keys))(records[i] + tail) == Ok((LowerReceipts(rs)[i], tail))
    {
      RecordRoundTrip(keys, rs, i, tail);
    }
    ManyRoundTrip(ReceiptTaker(AddressesOf(keys)), records, LowerReceipts(rs), "");
    assert Body(keys, rs) + "" == Body(keys, rs);
  }

  lemma AddressesRoundTrip(keys: seq<string>, rest: string)
    requires AreKeys(keys)
    ensures TakeMany(NewAddress, Concat(keys) + rest, |keys|) == Ok((AddressesOf(keys), rest))
  {
    forall i, tail | 0 <= i < |keys|
      ensures NewAddress(keys[i] + tail) == Ok((AddressesOf(keys)[i], tail))
    {
      TakeConcat(keys[i], tail, 20);
    }
    ManyRoundTrip(NewAddress, keys, AddressesOf(keys), rest);
  }

  lemma UnpackHexOfPacked(keys: seq<string>, rs: seq<Receipt>)
    requires |rs| <= MAX_RECEIPTS && |keys| <= MAX_ADDRESSES && AreKeys(keys) && CoversAll(keys, rs)
    ensures UnpackHex(Header(keys, |rs|) + Body(keys, rs)) == Ok(LowerReceipts(rs))
  {
    var body := Body(keys, rs);
    var count := PadStart(Hexadecimal.Print(|rs|), 4);
    assert Header(keys, |rs|) + body
        == Byte(COMPACT_VERSION) + (Byte(|keys|) + (Concat(keys) + (count + body)));
    TakeByte(COMPACT_VERSION, Byte(|keys|) + (Concat(keys) + (count + body)));
    TakeByte(|keys|, Concat(keys) + (count + body));
    AddressesRoundTrip(keys, count + body);
    CountReads(|rs|);
    TakeConcat(count, body, 2);
    BodyRoundTrip(keys, rs);
  }

  // Everything the packer writes is lower-case hex, two digits a byte.

  lemma NumeralConcat(s: string, t: string)
    requires Hexadecimal.IsNumeral(s) && Hexadecimal.IsNumeral(t)
    ensures Hexadecimal.IsNumeral(s + t)
  {
  }

  lemma AmountHexIsHex(amount: nat)
    requires amount <= MAX_UINT256
    ensures Hexadecimal.IsNumeral(AmountHex(amount))
    ensures |AmountHex(amount)| == 4 + |MantissaHex(Mantissa(amount))|
  {
    ExponentBound(amount);
    MantissaReads(Mantissa(amount));
    ByteReads(Exponent(amount));
    ByteReads(|MantissaHex(Mantissa(amount))| / 2);
  }

  lemma ReceiptHexIsHex(keys: seq<string>, r: Receipt)
    requires Covers(keys, r) && |keys| <= MAX_ADDRESSES
    ensures Hexadecimal.IsNumeral(ReceiptHex(keys, r)) && |ReceiptHex(keys, r)| == RecordLength(r)
  {
    var payer, payee := Byte(IndexOf(keys, Key(r.payer))), Byte(IndexOf(keys, Key(r.payee)));
    LowerHex(r.receiptHash, 64);
    ByteReads(IndexOf(keys, Key(r.payer)));
    ByteReads(IndexOf(keys, Key(r.payee)));
    AmountHexIsHex(r.amountMinor);
    NumeralConcat(payee, AmountHex(r.amountMinor));
    NumeralConcat(payer, payee + AmountHex(r.amountMinor));
    NumeralConcat(Key(r.receiptHash), payer + (payee + AmountHex(r.amountMinor)));
  }

  /** Characters one receipt takes in a blob of the packer. */
  function RecordLength(r: Receipt): nat {
    72 + if r.amountMinor < 0 then 0 else |MantissaHex(Mantissa(r.amountMinor))|
  }

  function RecordsLength(rs: seq<Receipt>): (n: nat)
    ensures n % 2 == 0
  {
    if |rs| == 0 then 0 else RecordLength(rs[0]) + RecordsLength(rs[1..])
  }

  predicate AreNumerals(parts: seq<string>) {
    forall i | 0 <= i < |parts| :: Hexadecimal.IsNumeral(parts[i])
  }

  lemma {:induction false} ConcatIsHex(parts: seq<string>)
    requires AreNumerals(parts)
    ensures Hexadecimal.IsNumeral(Concat(parts))
  {
    if |parts| > 0 {
      ConcatIsHex(parts[1..]);
      NumeralConcat(parts[0], Concat(parts[1..]));
    }
  }

  lemma {:induction false} KeysLength(keys: seq<string>)
    requires AreKeys(keys)
    ensures |Concat(keys)| == 40 * |keys|
  {
    if |keys| > 0 {
      KeysLength(keys[1..]);
    }
  }

  lemma BodyCons(keys: seq<string>, rs: seq<Receipt>)
    requires CoversAll(keys, rs) && |rs| > 0
    ensures Body(keys, rs) == Records(keys, rs)[0] + Body(keys, rs[1..])
  {
    assert Records(keys, rs)[1..] == Records(keys, rs[1..]);
  }

  lemma {:induction false} BodyLength(keys: seq<string>, rs: seq<Receipt>)
    requires CoversAll(keys, rs) && |keys| <= MAX_ADDRESSES
    ensures |Body(keys, rs)| == RecordsLength(rs)
  {
    if |rs| > 0 {
      ReceiptHexIsHex(keys, rs[0]);
      BodyLength(keys, rs[1..]);
      BodyCons(keys, rs);
    }
  }

  lemma BodyIsHex(keys: seq<string>, rs: seq<Receipt>)
    requires CoversAll(keys, rs) && |keys| <= MAX_ADDRESSES
    ensures Hexadecimal.IsNumeral(Body(keys, rs))
  {
    var records := Records(keys, rs);
    forall i | 0 <= i < |records|
      ensures Hexadecimal.IsNumeral(records[i])
    {
      ReceiptHexIsHex(keys, rs[i]);
    }
    ConcatIsHex(records);
  }

  lemma HeaderIsHex(keys: seq<string>, count: nat)
    requires AreKeys(keys) && |keys| <= MAX_ADDRESSES && count <= MAX_RECEIPTS
    ensures Hexadecimal.IsNumeral(Header(keys, count)) && |Header(keys, count)| == 8 + 40 * |keys|
    ensures |Header(keys, count)| % 2 == 0
  {
    KeysLength(keys);
    ByteReads(COMPACT_VERSION);
    ByteReads(|keys|);
    ConcatIsHex(keys);
    CountReads(count);
    var tail := PadStart(Hexadecimal.Print(count), 4);
    NumeralConcat(Concat(keys), tail);
    NumeralConcat(Byte(|keys|), Concat(keys) + tail);
    NumeralConcat(Byte(COMPACT_VERSION), Byte(|keys|) + (Concat(keys) + tail));
  }

  /** The blob of a packed batch is well formed and has the length its records need. */
  lemma PackedBlob(rs: seq<Receipt>)
    requires Pack(rs).Ok?
    ensures var keys := Dictionary(rs).value; var blob := Pack(rs).value;
            && CoversAll(keys, rs) && IsBlob(blob)
            && Lower(blob[2..]) == Header(keys, |rs|) + Body(keys, rs)
            && |blob| == 10 + 40 * |keys| + RecordsLength(rs)
  {
    var keys := Dictionary(rs).value;
    DictionaryCovers(rs);
    HeaderIsHex(keys, |rs|);
    BodyIsHex(keys, rs);
    BodyLength(keys, rs);
    PrefixedBlob(Pack(rs).value, Header(keys, |rs|), Body(keys, rs));
  }

  lemma PrefixedBlob(blob: string, header: string, body: string)
    requires blob == "0x" + (header + body) && |header| > 0 && |header| % 2 == 0 && |body| % 2 == 0
    requires Hexadecimal.IsNumeral(header) && Hexadecimal.IsNumeral(body)
    ensures IsBlob(blob) && Lower(blob[2..]) == header + body
    ensures |blob| == 2 + |header| + |body|
  {
    NumeralConcat(header, body);
    LowerNumeral(header + body);
    assert blob[2..] == header + body;
  }

  /** Unpacking a packed batch returns its receipts, hex in lower case. */
  lemma RoundTrip(rs: seq<Receipt>)
    requires Pack(rs).Ok?
    ensures Unpack(Pack(rs).value) == Ok(LowerReceipts(rs))
  {
    DictionaryCovers(rs);
    PackedBlob(rs);
    UnpackHexOfPacked(Dictionary(rs).value, rs);
  }

  // ---------------------------------------------------------------------------------------------
  // Prefix-freeness: the decoder reads a fixed amount, whatever follows
  // ---------------------------------------------------------------------------------------------

  lemma TakeMore(hex: string, bytes: nat, more: string)
    requires Take(hex, bytes).Ok?
    ensures Take(hex + more, bytes) == Ok((Take(hex, bytes).value.0, Take(hex, bytes).value.1 + more))
  {
    assert (hex + more)[..2 * bytes] == hex[..2 * bytes];
    assert (hex + more)[2 * bytes..] == hex[2 * bytes..] + more;
  }

  lemma TakeAddressMore(hex: string, addresses: seq<string>, more: string)
    requires TakeAddress(hex, addresses).Ok?
    ensures var (a, rest) := TakeAddress(hex, addresses).value;
            TakeAddress(hex + more, addresses) == Ok((a, rest + more))
  {
    TakeMore(hex, 1, more);
  }

  lemma TakeAmountMore(hex: string, more: string)
    requires TakeAmount(hex).Ok?
    ensures var (a, rest) := TakeAmount(hex).value; TakeAmount(hex + more) == Ok((a, rest + more))
  {
    TakeMore(hex, 1, more);
    var (_, rest) := TakeNumber(hex, 1).value;
    TakeMore(rest, 1, more);
    var (length, rest') := TakeNumber(rest, 1).value;
    TakeMore(rest', length, more);
  }

  lemma TakeReceiptMore(hex: string, addresses: seq<string>, more: string)
    requires TakeReceipt(hex, addresses).Ok?
    ensures var (r, rest) := TakeReceipt(hex, addresses).value;
            TakeReceipt(hex + more, addresses) == Ok((r, rest + more))
  {
    TakeMore(hex, 32, more);
    var (_, afterHash) := Take(hex, 32).value;
    TakeAddressMore(afterHash, addresses, more);
    var (_, afterPayer) := TakeAddress(afterHash, addresses).value;
    TakeAddressMore(afterPayer, addresses, more);
    var (_, afterPayee) := TakeAddress(afterPayer, addresses).value;
    TakeAmountMore(afterPayee, more);
  }

  /** The reader takes the same item whatever follows. */
  ghost predicate IgnoresTail<T(!new)>(take: Take1<T>) {
    forall hex, more | take(hex).Ok? :: take(hex + more) == Ok((take(hex).value.0, take(hex).value.1 + more))
  }

  lemma {:induction false} TakeManyMore<T(!new)>(take: Take1<T>, hex: string, count: nat, more: string)
    requires IgnoresTail(take) && TakeMany(take, hex, count).Ok?
    ensures var (items, rest) := TakeMany(take, hex, count).value;
            TakeMany(take, hex + more, count) == Ok((items, rest + more))
    decreases count
  {
    if count > 0 {
      TakeManyMore(take, take(hex).value.1, count - 1, more);
    }
  }

  lemma ReadersIgnoreTail(addresses: seq<string>)
    ensures IgnoresTail(NewAddress)
    ensures IgnoresTail(ReceiptTaker(addresses))
  {
    forall hex, more | NewAddress(hex).Ok?
      ensures NewAddress(hex + more) == Ok((NewAddress(hex).value.0, NewAddress(hex).value.1 + more))
    {
      TakeMore(hex, 20, more);
    }
    var take := ReceiptTaker(addresses);
    forall hex, more | take(hex).Ok?
      ensures take(hex + more) == Ok((take(hex).value.0, take(hex).value.1 + more))
    {
      TakeReceiptMore(hex, addresses, more);
    }
  }

  lemma ContinuedHexIsRejected(hex: string, more: string)
    requires UnpackHex(hex).Ok? && |more| > 0
    ensures UnpackHex(hex + more) == Err(TrailingBytes)
  {
    TakeMore(hex, 1, more);
    var (_, afterVersion) := TakeNumber(hex, 1).value;
    TakeMore(afterVersion, 1, more);
    var (addressCount, afterCount) := TakeNumber(afterVersion, 1).value;
    ReadersIgnoreTail([]);
    TakeManyMore(NewAddress, afterCount, addressCount, more);
    var (addresses, afterAddresses) := TakeMany(NewAddress, afterCount, addressCount).value;
    ReadersIgnoreTail(addresses);
    TakeMore(afterAddresses, 2, more);
    var (count, afterReceiptCount) := TakeNumber(afterAddresses, 2).value;
    TakeManyMore(ReceiptTaker(addresses), afterReceiptCount, count, more);
  }

  /** No accepted blob is a proper prefix of another accepted blob. */
  lemma PrefixFree(blob: string, longer: string)
    requires Unpack(blob).Ok? && blob < longer
    ensures Unpack(longer).Err?
  {
    if IsBlob(longer) {
      var more := longer[|blob|..];
      assert longer[2..] == blob[2..] + more;
      LowerConcat(blob[2..], more);
      ContinuedHexIsRejected(Lower(blob[2..]), Lower(more));
    }
  }

  // ---------------------------------------------------------------------------------------------
  // The shortest blob
  // ---------------------------------------------------------------------------------------------

  lemma TakeNumerals(hex: string, bytes: nat)
    requires Hexadecimal.IsNumeral(hex) && Take(hex, bytes).Ok?
    ensures var (chunk, rest) := Take(hex, bytes).value;
            && Hexadecimal.IsNumeral(chunk) && Hexadecimal.IsNumeral(rest)
            && |chunk| == 2 * bytes && |hex| == 2 * bytes + |rest|
  {
  }

  lemma TakenAmount(hex: string)
    requires Hexadecimal.IsNumeral(hex) && TakeAmount(hex).Ok?
    ensures var (amount, rest) := TakeAmount(hex).value;
            && Hexadecimal.IsNumeral(rest) && amount <= MAX_UINT256
            && |hex| - |rest| >= 4 + |MantissaHex(Mantissa(amount))|
  {
    TakeNumerals(hex, 1);
    var (exponent, rest) := TakeNumber(hex, 1).value;
    TakeNumerals(rest, 1);
    var (length, rest') := TakeNumber(rest, 1).value;
    TakeNumerals(rest', length);
    var (chunk, _) := Take(rest', length).value;
    MantissaHexIsShortest(TakeAmount(hex).value.0, chunk, exponent);
  }

  predicate AreAddresses(addresses: seq<string>) {
    forall i | 0 <= i < |addresses| :: IsHex(addresses[i], 40) && Lower(addresses[i]) == addresses[i]
  }

  predicate Decoded(r: Receipt, addresses: seq<string>) {
    && Packable(r) && LowerReceipt(r) == r && r.payer in addresses && r.payee in addresses
  }

  lemma LowHex(chunk: string, digits: nat)
    requires Hexadecimal.IsNumeral(chunk) && |chunk| == digits
    ensures IsHex("0x" + chunk, digits) && Lower("0x" + chunk) == "0x" + chunk
  {
    LowerNumeral(chunk);
    assert ("0x" + chunk)[2..] == chunk;
    LowerConcat("0x", chunk);
    assert Lower("0x") == "0x";
  }

  lemma TakenReceipt(hex: string, addresses: seq<string>)
    requires Hexadecimal.IsNumeral(hex) && AreAddresses(addresses) && TakeReceipt(hex, addresses).Ok?
    ensures var (r, rest) := TakeReceipt(hex, addresses).value;
            && Hexadecimal.IsNumeral(rest) && Decoded(r, addresses) && |hex| - |rest| >= RecordLength(r)
  {
    TakeNumerals(hex, 32);
    var (hash, afterHash) := Take(hex, 32).value;
    LowHex(hash, 64);
    TakeNumerals(afterHash, 1);
    var (payer, afterPayer) := TakeAddress(afterHash, addresses).value;
    TakeNumerals(afterPayer, 1);
    var (payee, afterPayee) := TakeAddress(afterPayer, addresses).value;
    TakenAmount(afterPayee);
  }

  function Total<T>(weight: T -> nat, items: seq<T>): nat {
    if |items| == 0 then 0 else weight(items[0]) + Total(weight, items[1..])
  }

  /** On hex text the reader yields good items and eats at least their weight. */
  ghost predicate Takes<T(!new)>(take: Take1<T>, good: T -> bool, weight: T -> nat) {
    forall hex | Hexadecimal.IsNumeral(hex) && take(hex).Ok? ::
      var (item, rest) := take(hex).value;
      Hexadecimal.IsNumeral(rest) && good(item) && |hex| - |rest| >= weight(item)
  }

  lemma {:induction false} TakenMany<T(!new)>(take: Take1<T>, hex: string, count: nat, good: T -> bool,
      weight: T -> nat)
    requires Takes(take, good, weight) && Hexadecimal.IsNumeral(hex) && TakeMany(take, hex, count).Ok?
    ensures var (items, rest) := TakeMany(take, hex, count).value;
            && |items| == count && Hexadecimal.IsNumeral(rest)
            && (forall i | 0 <= i < |items| :: good(items[i]))
            && |hex| - |rest| >= Total(weight, items)
    decreases count
  {
    if count > 0 {
      var (item, rest) := take(hex).value;
      TakenMany(take, rest, count - 1, good, weight);
      var (others, _) := TakeMany(take, rest, count - 1).value;
      assert ([item] + others)[1..] == others;
    }
  }

  predicate AllDecoded(rs: seq<Receipt>, addresses: seq<string>) {
    forall i | 0 <= i < |rs| :: Decoded(rs[i], addresses)
  }

  lemma TakenReceipts(hex: string, addresses: seq<string>, count: nat)
    requires Hexadecimal.IsNumeral(hex) && AreAddresses(addresses)
    requires TakeMany(ReceiptTaker(addresses), hex, count).Ok?
    ensures var (rs, rest) := TakeMany(ReceiptTaker(addresses), hex, count).value;
            && |rs| == count && AllDecoded(rs, addresses) && |hex| - |rest| >= RecordsLength(rs)
  {
    var take, good := ReceiptTaker(addresses), r => Decoded(r, addresses);
    forall h | Hexadecimal.IsNumeral(h) && take(h).Ok?
      ensures Hexadecimal.IsNumeral(take(h).value.1) && good(take(h).value.0)
      ensures |h| - |take(h).value.1| >= RecordLength(take(h).value.0)
    {
      TakenReceipt(h, addresses);
    }
    TakenMany(take, hex, count, good, RecordLength);
    var rs := TakeMany(take, hex, count).value.0;
    RecordsTotal(rs);
    assert forall i | 0 <= i < |rs| :: good(rs[i]) ==> Decoded(rs[i], addresses);
  }

  lemma {:induction false} RecordsTotal(rs: seq<Receipt>)
    ensures Total(RecordLength, rs) == RecordsLength(rs)
  {
    if |rs| > 0 {
      RecordsTotal(rs[1..]);
    }
  }

  lemma TakenAddresses(hex: string, count: nat)
    requires Hexadecimal.IsNumeral(hex) && TakeMany(NewAddress, hex, count).Ok?
    ensures var (addresses, rest) := TakeMany(NewAddress, hex, count).value;
            && |addresses| == count && AreAddresses(addresses) && Hexadecimal.IsNumeral(rest)
            && |hex| - |rest| >= 40 * count
  {
    var good := (a: string) => IsHex(a, 40) && Lower(a) == a;
    forall h | Hexadecimal.IsNumeral(h) && NewAddress(h).Ok?
      ensures Hexadecimal.IsNumeral(NewAddress(h).value.1) && good(NewAddress(h).value.0)
      ensures |h| - |NewAddress(h).value.1| >= AddressLength(NewAddress(h).value.0)
    {
      TakeNumerals(h, 20);
      LowHex(Take(h, 20).value.0, 40);
    }
    TakenMany(NewAddress, hex, count, good, AddressLength);
    var addresses := TakeMany(NewAddress, hex, count).value.0;
    AddressesTotal(addresses);
    assert forall i | 0 <= i < |addresses| :: good(addresses[i]);
  }

  function AddressLength(address: string): nat {
    40
  }

  lemma {:induction false} AddressesTotal(addresses: seq<string>)
    ensures Total(AddressLength, addresses) == 40 * |addresses|
  {
    if |addresses| > 0 {
      AddressesTotal(addresses[1..]);
    }
  }

  /** A list without repetitions that draws from a pool is no longer than the pool. */
  lemma {:induction false} Pigeonhole(keys: seq<string>, pool: seq<string>)
    requires Distinct(keys) && forall i | 0 <= i < |keys| :: keys[i] in pool
    ensures |keys| <= |pool|
  {
    if |keys| > 0 {
      var last := keys[|keys| - 1];
      var j :| 0 <= j < |pool| && pool[j] == last;
      var others := pool[..j] + pool[j + 1..];
      forall i | 0 <= i < |keys| - 1
        ensures keys[i] in others
      {
        var k :| 0 <= k < |pool| && pool[k] == keys[i];
        assert k != j;
        assert others[if k < j then k else k - 1] == keys[i];
      }
      Pigeonhole(keys[..|keys| - 1], others);
    }
  }

  function KeysOf(addresses: seq<string>): (keys: seq<string>)
    requires AreAddresses(addresses)
    ensures |keys| == |addresses|
    ensures forall i | 0 <= i < |addresses| :: keys[i] == Key(addresses[i])
  {
    seq(|addresses|, i requires 0 <= i < |addresses| => Key(addresses[i]))
  }

  predicate DrawnFrom(keys: seq<string>, pool: seq<string>) {
    forall i | 0 <= i < |keys| :: keys[i] in pool
  }

  lemma InternFromPool(keys: seq<string>, address: string, bad: PackError, pool: seq<string>)
    requires Distinct(keys) && AreKeys(keys) && DrawnFrom(keys, pool) && |pool| <= MAX_ADDRESSES
    requires IsHex(address, 40) && Key(address) in pool
    ensures var r := Intern(keys, address, bad);
            r.Ok? && Distinct(r.value) && AreKeys(r.value) && DrawnFrom(r.value, pool)
  {
    Pigeonhole(keys, pool);
    InternGrows(keys, address, bad);
    if Key(address) !in keys {
      var more := keys + [Key(address)];
      assert Distinct(more) && DrawnFrom(more, pool);
      Pigeonhole(more, pool);
    }
  }

  lemma {:induction false} DictionaryFromPool(rs: seq<Receipt>, addresses: seq<string>)
    requires AreAddresses(addresses) && |addresses| <= MAX_ADDRESSES && AllDecoded(rs, addresses)
    ensures var k := Dictionary(rs);
            k.Ok? && Distinct(k.value) && AreKeys(k.value) && DrawnFrom(k.value, KeysOf(addresses))
  {
    if |rs| > 0 {
      var before, r := rs[..|rs| - 1], rs[|rs| - 1];
      DictionaryFromPool(before, addresses);
      var pool, keys := KeysOf(addresses), Dictionary(before).value;
      assert Decoded(r, addresses);
      KeyInPool(addresses, r.payer);
      KeyInPool(addresses, r.payee);
      InternFromPool(keys, r.payer, BadPayer, pool);
      InternFromPool(Intern(keys, r.payer, BadPayer).value, r.payee, BadPayee, pool);
    }
  }

  lemma KeyInPool(addresses: seq<string>, address: string)
    requires AreAddresses(addresses) && address in addresses
    ensures Key(address) in KeysOf(addresses)
  {
    var i :| 0 <= i < |addresses| && addresses[i] == address;
    assert KeysOf(addresses)[i] == Key(address);
  }

  lemma AcceptedHex(hex: string)
    requires Hexadecimal.IsNumeral(hex) && UnpackHex(hex).Ok?
    ensures var rs := UnpackHex(hex).value;
            && |rs| <= MAX_RECEIPTS && LowerReceipts(rs) == rs && Dictionary(rs).Ok?
            && 8 + 40 * |Dictionary(rs).value| + RecordsLength(rs) <= |hex|
  {
    TakeNumerals(hex, 1);
    var (_, afterVersion) := TakeNumber(hex, 1).value;
    TakeNumerals(afterVersion, 1);
    var (addressCount, afterCount) := TakeNumber(afterVersion, 1).value;
    OneByte(afterVersion);
    TakenAddresses(afterCount, addressCount);
    var (addresses, afterAddresses) := TakeMany(NewAddress, afterCount, addressCount).value;
    TakeNumerals(afterAddresses, 2);
    var (count, afterReceiptCount) := TakeNumber(afterAddresses, 2).value;
    TwoBytes(afterAddresses);
    TakenReceipts(afterReceiptCount, addresses, count);
    var rs := UnpackHex(hex).value;
    DictionaryFromPool(rs, addresses);
    Pigeonhole(Dictionary(rs).value, KeysOf(addresses));
    assert forall i | 0 <= i < |rs| :: Decoded(rs[i], addresses);
    assert LowerReceipts(rs) == rs;
  }

  lemma OneByte(hex: string)
    requires Hexadecimal.IsNumeral(hex) && TakeNumber(hex, 1).Ok?
    ensures TakeNumber(hex, 1).value.0 <= 255
  {
    TakeNumerals(hex, 1);
    ParseBelow(Hexadecimal, hex[..2]);
    assert Hexadecimal.Pow(1) == 16 && Hexadecimal.Pow(2) == 256;
  }

  lemma TwoBytes(hex: string)
    requires Hexadecimal.IsNumeral(hex) && TakeNumber(hex, 2).Ok?
    ensures TakeNumber(hex, 2).value.0 <= MAX_RECEIPTS
  {
    TakeNumerals(hex, 2);
    ParseBelow(Hexadecimal, hex[..4]);
    assert Hexadecimal.Pow(2) == 256 && Hexadecimal.Pow(3) == 4096 && Hexadecimal.Pow(4) == 0x1_0000;
  }

  /**
   Whatever blob the decoder accepts, packing its receipts succeeds, decodes to the same receipts
   and is no longer: the packer emits a shortest accepted blob.
   */
  lemma ShortestBlob(blob: string)
    requires Unpack(blob).Ok?
    ensures var rs := Unpack(blob).value;
            && Pack(rs).Ok? && Unpack(Pack(rs).value) == Ok(rs) && |Pack(rs).value| <= |blob|
  {
    LowerNumeral(blob[2..]);
    AcceptedHex(Lower(blob[2..]));
    var rs := Unpack(blob).value;
    RoundTrip(rs);
    PackedBlob(rs);
  }
}
