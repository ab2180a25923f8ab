/** The compact (v2) batch blob: an address dictionary, then one record per receipt. */
module CompactCodec {
  import opened Base
  import opened Digits
  import opened Hex
  import opened Receipts

  const COMPACT_VERSION := 2
  const MAX_ADDRESSES := 255
  const MAX_RECEIPTS := 0xffff

  datatype PackError =
    | TooManyReceipts | BadReceiptHash | AmountOutOfRange | BadPayer | BadPayee | TooManyAddresses

  datatype UnpackError =
    | InvalidBlob | Truncated | UnsupportedVersion | IndexOutOfRange | MantissaTooLong | AmountTooLarge
    | TrailingBytes

  // ---------------------------------------------------------------------------------------------
  // Amounts in scientific form
  // ---------------------------------------------------------------------------------------------

  function Mantissa(amount: nat): (m: nat)
    ensures amount > 0 ==> m > 0
    ensures m <= amount
  {
    if amount > 0 && amount % 10 == 0 then Mantissa(amount / 10) else amount
  }

  function Exponent(amount: nat): nat {
    if amount > 0 && amount % 10 == 0 then 1 + Exponent(amount / 10) else 0
  }

  /** `mantissa * 10n ** exponent`. */
  function Scale(mantissa: nat, exponent: nat): nat {
    if exponent == 0 then mantissa else 10 * Scale(mantissa, exponent - 1)
  }

  lemma {:induction false} ScaleIsProduct(mantissa: nat, exponent: nat)
    ensures Scale(mantissa, exponent) == mantissa * Decimal.Pow(exponent)
  {
    if exponent > 0 {
      ScaleIsProduct(mantissa, exponent - 1);
    }
  }

  lemma {:induction false} ScientificValue(amount: nat)
    ensures Scale(Mantissa(amount), Exponent(amount)) == amount
  {
    if amount > 0 && amount % 10 == 0 {
      ScientificValue(amount / 10);
    }
  }

  /** No other mantissa and exponent denote the amount with a smaller mantissa. */
  lemma {:induction false} MantissaIsLeast(amount: nat, m: nat, e: nat)
    requires amount > 0 && Scale(m, e) == amount
    ensures Mantissa(amount) <= m
    decreases e
  {
    if e > 0 {
      MantissaIsLeast(amount / 10, m, e - 1);
    }
  }

  lemma PowProduct(r: Radix, m: nat, n: nat, pm: nat, pn: nat)
    requires r.Pow(m) == pm && r.Pow(n) == pn
    ensures r.Pow(m + n) == pm * pn
  {
    PowAdd(r, m, n);
  }

  lemma MaxUint256IsHexPower()
    ensures MAX_UINT256 + 1 == Hexadecimal.Pow(64)
  {
    var p4 := 0x1_0000;
    assert Hexadecimal.Pow(4) == p4;
    PowProduct(Hexadecimal, 4, 4, p4, p4);
    var p8 := 0x1_0000_0000;
    PowProduct(Hexadecimal, 8, 8, p8, p8);
    var p16 := 0x1_0000_0000_0000_0000;
    PowProduct(Hexadecimal, 16, 16, p16, p16);
    var p32 := 0x1_0000_0000_0000_0000_0000_0000_0000_0000;
    PowProduct(Hexadecimal, 32, 32, p32, p32);
  }

  lemma TenTo78()
    ensures Decimal.Pow(78) > MAX_UINT256
  {
    assert Decimal.Pow(3) == 1000;
    PowProduct(Decimal, 3, 3, 1000, 1000);
    PowProduct(Decimal, 3, 6, 1000, 1000000);
    PowProduct(Decimal, 9, 9, 1000000000, 1000000000);
    PowProduct(Decimal, 18, 18, 1000000000000000000, 1000000000000000000);
    PowProduct(Decimal, 36, 3, 1000000000000000000000000000000000000, 1000);
    PowProduct(Decimal, 39, 39, 1000000000000000000000000000000000000000,
               1000000000000000000000000000000000000000);
  }

  lemma ExponentBound(amount: nat)
    requires amount <= MAX_UINT256
    ensures Exponent(amount) <= 77
  {
    if Exponent(amount) >= 78 {
      ScientificValue(amount);
      ScaleIsProduct(Mantissa(amount), Exponent(amount));
      PowMonotone(Decimal, 78, Exponent(amount));
      TenTo78();
      MulMonotone(1, Mantissa(amount), Decimal.Pow(Exponent(amount)));
      assert false;
    }
  }

  method ToScientific(amount: nat) returns (mantissa: nat, exponent: nat)
    ensures mantissa == Mantissa(amount) && exponent == Exponent(amount)
  {
    if amount == 0 {
      return 0, 0;
    }
    mantissa := amount;
    exponent := 0;
    while mantissa % 10 == 0
      invariant mantissa > 0
      invariant Mantissa(mantissa) == Mantissa(amount)
      invariant exponent + Exponent(mantissa) == Exponent(amount)
      decreases mantissa
    {
      mantissa := mantissa / 10;
      exponent := exponent + 1;
    }
  }

  // ---------------------------------------------------------------------------------------------
  // Bytes as hex text
  // ---------------------------------------------------------------------------------------------

  function Byte(value: nat): string {
    PadStart(Hexadecimal.Print(value), 2)
  }

  function EvenHex(value: nat): (s: string)
    ensures |s| % 2 == 0
  {
    var hex := Hexadecimal.Print(value);
    if |hex| % 2 == 0 then hex else "0" + hex
  }

  function MantissaHex(mantissa: nat): (s: string)
    ensures |s| % 2 == 0
  {
    if mantissa == 0 then "" else EvenHex(mantissa)
  }

  lemma ByteReads(value: nat)
    requires value < 256
    ensures |Byte(value)| == 2 && Hexadecimal.IsNumeral(Byte(value))
    ensures Hexadecimal.Parse(Byte(value)) == value
  {
    assert Hexadecimal.Pow(2) == 256 by {
      assert Hexadecimal.Pow(1) == 16;
    }
    FixedWidth(Hexadecimal, value, 2);
  }

  lemma CountReads(value: nat)
    requires value <= MAX_RECEIPTS
    ensures var s := PadStart(Hexadecimal.Print(value), 4);
            |s| == 4 && Hexadecimal.IsNumeral(s) && Hexadecimal.Parse(s) == value
  {
    assert Hexadecimal.Pow(4) == 0x1_0000 by {
      PowAdd(Hexadecimal, 2, 2);
      assert Hexadecimal.Pow(1) == 16;
    }
    FixedWidth(Hexadecimal, value, 4);
  }

  lemma MantissaReads(mantissa: nat)
    ensures Hexadecimal.IsNumeral(MantissaHex(mantissa))
    ensures Hexadecimal.Parse(MantissaHex(mantissa)) == mantissa
    ensures mantissa <= MAX_UINT256 ==> |MantissaHex(mantissa)| <= 64
  {
    if mantissa > 0 {
      EvenHexReads(mantissa);
    }
    if mantissa <= MAX_UINT256 {
      MaxUint256IsHexPower();
      PrintLength(Hexadecimal, mantissa, 64);
    }
  }

  lemma EvenHexReads(n: nat)
    ensures Hexadecimal.IsNumeral(EvenHex(n)) && Hexadecimal.Parse(EvenHex(n)) == n
  {
    var digits := Hexadecimal.Print(n);
    ParsePrint(Hexadecimal, n);
    if |digits| % 2 == 1 {
      ParsePadStart(Hexadecimal, digits, |digits| + 1);
      assert Zeros(1) == "0" && EvenHex(n) == PadStart(digits, |digits| + 1);
    }
  }

  /** A mantissa in an even number of digits is never shorter than the packed one. */
  lemma MantissaHexIsShortest(amount: nat, s: string, e: nat)
    requires Hexadecimal.IsNumeral(s) && |s| % 2 == 0
    requires Scale(Hexadecimal.Parse(s), e) == amount
    ensures |MantissaHex(Mantissa(amount))| <= |s|
  {
    if amount > 0 {
      if |s| == 0 {
        ScaleIsProduct(0, e);
      }
      MantissaIsLeast(amount, Hexadecimal.Parse(s), e);
      PrintMonotone(Hexadecimal, Mantissa(amount), Hexadecimal.Parse(s));
      PrintShortest(Hexadecimal, s);
    }
  }

  // ---------------------------------------------------------------------------------------------
  // Encoding
  // ---------------------------------------------------------------------------------------------

  function Key(address: string): string
    requires |address| >= 2
  {
    Lower(address[2..])
  }

  /** Position of a key in the dictionary. */
  function IndexOf(keys: seq<string>, key: string): (i: nat)
    requires key in keys
    ensures i < |keys| && keys[i] == key
  {
    if keys[0] == key then 0 else 1 + IndexOf(keys[1..], key)
  }

  function Intern(keys: seq<string>, address: string, bad: PackError): (r: Result<seq<string>, PackError>)
    ensures r.Ok? ==> IsHex(address, 40) && Key(address) in r.value
  {
    if !IsHex(address, 40) then Err(bad)
    else if Key(address) in keys then Ok(keys)
    else if |keys| >= MAX_ADDRESSES then Err(TooManyAddresses)
    else Ok(keys + [Key(address)])
  }

  /** The dictionary after one more receipt, or the first check it fails. */
  function AddReceipt(keys: seq<string>, r: Receipt): Result<seq<string>, PackError> {
    if !IsHex(r.receiptHash, 64) then Err(BadReceiptHash)
    else if r.amountMinor < 0 || r.amountMinor > MAX_UINT256 then Err(AmountOutOfRange)
    else
      var withPayer :- Intern(keys, r.payer, BadPayer);
      Intern(withPayer, r.payee, BadPayee)
  }

  function Dictionary(rs: seq<Receipt>): Result<seq<string>, PackError> {
    if |rs| == 0 then Ok([])
    else
      var keys :- Dictionary(rs[..|rs| - 1]);
      AddReceipt(keys, rs[|rs| - 1])
  }

  predicate Packable(r: Receipt) {
    IsHex(r.receiptHash, 64) && IsHex(r.payer, 40) && IsHex(r.payee, 40) && 0 <= r.amountMinor <= MAX_UINT256
  }

  predicate Covers(keys: seq<string>, r: Receipt) {
    Packable(r) && Key(r.payer) in keys && Key(r.payee) in keys
  }

  predicate CoversAll(keys: seq<string>, rs: seq<Receipt>) {
    forall i | 0 <= i < |rs| :: Covers(keys, rs[i])
  }

  function ReceiptHex(keys: seq<string>, r: Receipt): string
    requires Covers(keys, r)
  {
    Key(r.receiptHash) + (Byte(IndexOf(keys, Key(r.payer))) + (Byte(IndexOf(keys, Key(r.payee)))
    + AmountHex(r.amountMinor)))
  }

  function AmountHex(amount: nat): string {
    var mantissa := MantissaHex(Mantissa(amount));
    Byte(Exponent(amount)) + (Byte(|mantissa| / 2) + mantissa)
  }

  function Records(keys: seq<string>, rs: seq<Receipt>): (records: seq<string>)
    requires CoversAll(keys, rs)
    ensures |records| == |rs|
  {
    seq(|rs|, i requires 0 <= i < |rs| => ReceiptHex(keys, rs[i]))
  }

  function Body(keys: seq<string>, rs: seq<Receipt>): string
    requires CoversAll(keys, rs)
  {
    Concat(Records(keys, rs))
  }

  function Header(keys: seq<string>, count: nat): string {
    Byte(COMPACT_VERSION) + (Byte(|keys|) + (Concat(keys) + PadStart(Hexadecimal.Print(count), 4)))
  }

  /** The blob packReceiptsCompact builds, or the first check that throws. */
  function Pack(rs: seq<Receipt>): Result<string, PackError> {
    if |rs| > MAX_RECEIPTS then Err(TooManyReceipts)
    else
      var keys :- Dictionary(rs);
      DictionaryCovers(rs);
      Ok("0x" + (Header(keys, |rs|) + Body(keys, rs)))
  }

  // The dictionary only grows at its end, so an index given out early stays right.

  predicate Distinct(keys: seq<string>) {
    forall i, j | 0 <= i < j < |keys| :: keys[i] != keys[j]
  }

  predicate AreKeys(keys: seq<string>) {
    forall i | 0 <= i < |keys| :: |keys[i]| == 40 && Hexadecimal.IsNumeral(keys[i])
  }

  lemma InternGrows(keys: seq<string>, address: string, bad: PackError)
    requires Distinct(keys) && AreKeys(keys) && |keys| <= MAX_ADDRESSES
    ensures var r := Intern(keys, address, bad);
            r.Ok? ==> keys <= r.value && Distinct(r.value) && AreKeys(r.value) && |r.value| <= MAX_ADDRESSES
  {
    if IsHex(address, 40) {
      LowerHex(address, 40);
    }
  }

  lemma AddReceiptGrows(keys: seq<string>, r: Receipt)
    requires Distinct(keys) && AreKeys(keys) && |keys| <= MAX_ADDRESSES
    ensures var k := AddReceipt(keys, r);
            k.Ok? ==> keys <= k.value && Distinct(k.value) && AreKeys(k.value) && |k.value| <= MAX_ADDRESSES
                      && Covers(k.value, r)
  {
    InternGrows(keys, r.payer, BadPayer);
    var withPayer := Intern(keys, r.payer, BadPayer);
    if withPayer.Ok? {
      InternGrows(withPayer.value, r.payee, BadPayee);
    }
  }

  lemma CoversMore(keys: seq<string>, more: seq<string>, rs: seq<Receipt>, r: Receipt)
    requires CoversAll(keys, rs) && keys <= more && Covers(more, r)
    ensures CoversAll(more, rs + [r])
  {
    forall i | 0 <= i < |rs|
      ensures Covers(more, rs[i])
    {
      assert Covers(keys, rs[i]);
    }
  }

  lemma {:induction false} DictionaryCovers(rs: seq<Receipt>)
    ensures var k := Dictionary(rs);
            k.Ok? ==> Distinct(k.value) && AreKeys(k.value) && |k.value| <= MAX_ADDRESSES && CoversAll(k.value, rs)
  {
    if |rs| > 0 && Dictionary(rs).Ok? {
      var before, r := rs[..|rs| - 1], rs[|rs| - 1];
      DictionaryCovers(before);
      var keys := Dictionary(before).value;
      AddReceiptGrows(keys, r);
      CoversMore(keys, Dictionary(rs).value, before, r);
      assert before + [r] == rs;
    }
  }

  lemma {:induction false} IndexIsStable(keys: seq<string>, more: seq<string>, key: string)
    requires key in keys && keys <= more
    ensures IndexOf(keys, key) == IndexOf(more, key)
  {
    if keys[0] != key {
      IndexIsStable(keys[1..], more[1..], key);
    }
  }

  lemma RecordIsStable(keys: seq<string>, more: seq<string>, r: Receipt)
    requires keys <= more && Covers(keys, r) && Covers(more, r)
    ensures ReceiptHex(keys, r) == ReceiptHex(more, r)
  {
    IndexIsStable(keys, more, Key(r.payer));
    IndexIsStable(keys, more, Key(r.payee));
  }

  // ---------------------------------------------------------------------------------------------
  // Decoding
  // ---------------------------------------------------------------------------------------------

  /** The next `bytes` bytes and what is left. */
  function Take(hex: string, bytes: nat): Result<(string, string), UnpackError> {
    if 2 * bytes > |hex| then Err(Truncated) else Ok((hex[..2 * bytes], hex[2 * bytes..]))
  }

  function TakeNumber(hex: string, bytes: nat): Result<(nat, string), UnpackError> {
    var (chunk, rest) :- Take(hex, bytes);
    Ok((Hexadecimal.Parse(chunk), rest))
  }

  type Take1<T> = string -> Result<(T, string), UnpackError>

  /** One item after the other, `count` of them. */
  function TakeMany<T>(take: Take1<T>, hex: string, count: nat): Result<(seq<T>, string), UnpackError>
    decreases count
  {
    if count == 0 then Ok(([], hex))
    else
      var (item, rest) :- take(hex);
      var (others, rest) :- TakeMany(take, rest, count - 1);
      Ok(([item] + others, rest))
  }

  function NewAddress(hex: string): Result<(string, string), UnpackError> {
    var (chunk, rest) :- Take(hex, 20);
    Ok(("0x" + chunk, rest))
  }

  function TakeAddress(hex: string, addresses: seq<string>): Result<(string, string), UnpackError> {
    var (index, rest) :- TakeNumber(hex, 1);
    if index >= |addresses| then Err(IndexOutOfRange) else Ok((addresses[index], rest))
  }

  function TakeReceipt(hex: string, addresses: seq<string>): Result<(Receipt, string), UnpackError> {
    var (hash, rest) :- Take(hex, 32);
    var (payer, rest) :- TakeAddress(rest, addresses);
    var (payee, rest) :- TakeAddress(rest, addresses);
    var (amount, rest) :- TakeAmount(rest);
    Ok((Receipt("0x" + hash, payer, payee, amount), rest))
  }

  function TakeAmount(hex: string): Result<(nat, string), UnpackError> {
    var (exponent, rest) :- TakeNumber(hex, 1);
    var (length, rest) :- TakeNumber(rest, 1);
    if length > 32 then Err(MantissaTooLong)
    else
      var (mantissa, rest) :- TakeNumber(rest, length);
      var amount := Scale(mantissa, exponent);
      if amount > MAX_UINT256 then Err(AmountTooLarge) else Ok((amount, rest))
  }

  function ReceiptTaker(addresses: seq<string>): Take1<Receipt> {
    hex => TakeReceipt(hex, addresses)
  }

  /** /^0x([0-9a-fA-F]{2})+$/ */
  predicate IsBlob(blob: string) {
    |blob| > 2 && |blob| % 2 == 0 && IsHex(blob, |blob| - 2)
  }

  /** What unpackReceiptsCompact returns, or the first check that throws. */
  function Unpack(blob: string): Result<seq<Receipt>, UnpackError> {
    if !IsBlob(blob) then Err(InvalidBlob) else UnpackHex(Lower(blob[2..]))
  }

  function UnpackHex(hex: string): Result<seq<Receipt>, UnpackError> {
    var (version, rest) :- TakeNumber(hex, 1);
    if version != COMPACT_VERSION then Err(UnsupportedVersion)
    else
      var (addressCount, rest) :- TakeNumber(rest, 1);
      var (addresses, rest) :- TakeMany(NewAddress, rest, addressCount);
      var (count, rest) :- TakeNumber(rest, 2);
      var (receipts, rest) :- TakeMany(ReceiptTaker(addresses), rest, count);
      if |rest| > 0 then Err(TrailingBytes) else Ok(receipts)
  }
}
