/** The fixed-width (v1) batch blob: 80 bytes a receipt, and how it compares with the compact one. */
module ReceiptPacking {
  import opened Base
  import opened Digits
  import opened Hex
  import opened Receipts
  import CompactCodec
  import CompactTheorems
  import BatchCalldata
  import Merkle

  const RECEIPT_CHARS := 160
  const MAX_UINT64: nat := 0xffff_ffff_ffff_ffff

  datatype PackError = BadReceiptHash | BadPayer | BadPayee | AmountOutOfRange

  datatype UnpackError = InvalidBlob | NotANumber

  datatype PackedBatch = PackedBatch(blob: string, root: string, count: nat)

  predicate Fits(r: Receipt) {
    IsHex(r.receiptHash, 64) && IsHex(r.payer, 40) && IsHex(r.payee, 40) && 0 <= r.amountMinor <= MAX_UINT64
  }

  predicate AllFit(rs: seq<Receipt>) {
    forall i | 0 <= i < |rs| :: Fits(rs[i])
  }

  /** The first check a receipt fails. */
  function Check(r: Receipt): (failure: Option<PackError>)
    ensures failure.None? <==> Fits(r)
  {
    if !IsHex(r.receiptHash, 64) then Some(BadReceiptHash)
    else if !IsHex(r.payer, 40) then Some(BadPayer)
    else if !IsHex(r.payee, 40) then Some(BadPayee)
    else if r.amountMinor < 0 || r.amountMinor > MAX_UINT64 then Some(AmountOutOfRange)
    else None
  }

  function Record(r: Receipt): string
    requires Fits(r)
  {
    Lower(r.receiptHash[2..]) + (Lower(r.payer[2..]) + (Lower(r.payee[2..])
    + PadStart(Hexadecimal.Print(r.amountMinor), 16)))
  }

  function Records(rs: seq<Receipt>): (records: seq<string>)
    requires AllFit(rs)
    ensures |records| == |rs|
    ensures forall i | 0 <= i < |rs| :: records[i] == Record(rs[i])
  {
    seq(|rs|, i requires 0 <= i < |rs| => Record(rs[i]))
  }

  /** What packReceipts makes of a batch whose receipts all pass its checks. */
  function Blob(rs: seq<Receipt>): string
    requires AllFit(rs)
  {
    "0x" + Concat(Records(rs))
  }

  /** White space and line terminators of ECMAScript, which BigInt trims. */
  predicate IsSpace(c: char) {
    var code := c as int;
    9 <= code <= 13 || 0x2000 <= code <= 0x200A
    || code in {0x20, 0xA0, 0x1680, 0x2028, 0x2029, 0x202F, 0x205F, 0x3000, 0xFEFF}
  }

  function TrimEnd(text: string): string {
    if |text| > 0 && IsSpace(text[|text| - 1]) then TrimEnd(text[..|text| - 1]) else text
  }

  /** BigInt('0x' + text): trailing white space goes, and what is left must be hex digits. */
  function HexBigInt(text: string): Result<nat, UnpackError> {
    var digits := TrimEnd(text);
    if |digits| == 0 || !IsHexText(digits) then Err(NotANumber) else Ok(Hexadecimal.Parse(Lower(digits)))
  }

  /** One record read back, as unpackReceipts slices it; only the amount is checked to be hex. */
  function ReadRecord(record: string): Result<Receipt, UnpackError>
    requires |record| == RECEIPT_CHARS
  {
    var amount :- HexBigInt(record[144..]);
    Ok(Receipt("0x" + record[..64], "0x" + record[64..104], "0x" + record[104..144], amount))
  }

  function ReadRecords(text: string): Result<seq<Receipt>, UnpackError>
    requires |text| % RECEIPT_CHARS == 0
    decreases |text|
  {
    if |text| == 0 then Ok([])
    else
      var first :- ReadRecord(text[..RECEIPT_CHARS]);
      var others :- ReadRecords(text[RECEIPT_CHARS..]);
      Ok([first] + others)
  }

  function Unpack(blob: string): Result<seq<Receipt>, UnpackError> {
    if |blob| < 2 || blob[..2] != "0x" || (|blob| - 2) % RECEIPT_CHARS != 0 then Err(InvalidBlob)
    else ReadRecords(blob[2..])
  }

  lemma {:induction false} TrimEndIs(text: string)
    ensures var n := |TrimEnd(text)|;
            && n <= |text| && TrimEnd(text) == text[..n] && (n > 0 ==> !IsSpace(text[n - 1]))
            && forall i | n <= i < |text| :: IsSpace(text[i])
  {
    if |text| > 0 && IsSpace(text[|text| - 1]) {
      TrimEndIs(text[..|text| - 1]);
    }
  }

  /** BigInt takes hex digits of either case with white space after them, and nothing else. */
  lemma HexBigIntIff(text: string, n: nat)
    ensures HexBigInt(text) == Ok(n) <==>
              exists k :: 0 < k <= |text| && IsHexText(text[..k]) && (forall i | k <= i < |text| :: IsSpace(text[i]))
                          && Hexadecimal.Parse(Lower(text[..k])) == n
  {
    TrimEndIs(text);
    var m := |TrimEnd(text)|;
    if k :| 0 < k <= |text| && IsHexText(text[..k]) && (forall i | k <= i < |text| :: IsSpace(text[i]))
            && Hexadecimal.Parse(Lower(text[..k])) == n {
      assert IsHexChar(text[..k][k - 1]) && !IsSpace(text[k - 1]);
      assert k == m;
    }
  }

  lemma Uint64IsHexPower()
    ensures Hexadecimal.Pow(16) == MAX_UINT64 + 1
  {
    assert Hexadecimal.Pow(4) == 0x1_0000;
    CompactCodec.PowProduct(Hexadecimal, 4, 4, 0x1_0000, 0x1_0000);
    CompactCodec.PowProduct(Hexadecimal, 8, 8, 0x1_0000_0000, 0x1_0000_0000);
  }

  lemma AmountReads(amount: nat)
    requires amount <= MAX_UINT64
    ensures var text := PadStart(Hexadecimal.Print(amount), 16); |text| == 16 && HexBigInt(text) == Ok(amount)
  {
    var text := PadStart(Hexadecimal.Print(amount), 16);
    Uint64IsHexPower();
    FixedWidth(Hexadecimal, amount, 16);
    LowerNumeral(text);
    assert IsHexChar(text[15]) && TrimEnd(text) == text;
  }

  lemma RecordReadsBack(r: Receipt)
    requires Fits(r)
    ensures |Record(r)| == RECEIPT_CHARS
    ensures ReadRecord(Record(r)) == Ok(LowerReceipt(r))
  {
    LowerHex(r.receiptHash, 64);
    LowerHex(r.payer, 40);
    LowerHex(r.payee, 40);
    var amount := PadStart(Hexadecimal.Print(r.amountMinor), 16);
    AmountReads(r.amountMinor);
    Slices(Lower(r.receiptHash[2..]), Lower(r.payer[2..]), Lower(r.payee[2..]), amount);
  }

  lemma Slices(hash: string, payer: string, payee: string, amount: string)
    requires |hash| == 64 && |payer| == 40 && |payee| == 40
    ensures var record := hash + payer + payee + amount;
            && record[..64] == hash && record[64..104] == payer && record[104..144] == payee && record[144..] == amount
            && record == hash + (payer + (payee + amount))
  {
  }

  lemma ReadFirst(record: string, rest: string)
    requires |record| == RECEIPT_CHARS && |rest| % RECEIPT_CHARS == 0
    requires ReadRecord(record).Ok? && ReadRecords(rest).Ok?
    ensures ReadRecords(record + rest) == Ok([ReadRecord(record).value] + ReadRecords(rest).value)
  {
    assert (record + rest)[..RECEIPT_CHARS] == record && (record + rest)[RECEIPT_CHARS..] == rest;
  }

  lemma RecordsSplit(rs: seq<Receipt>)
    requires AllFit(rs) && |rs| > 0
    ensures AllFit(rs[1..]) && Records(rs) == [Record(rs[0])] + Records(rs[1..])
  {
    var split := [Record(rs[0])] + Records(rs[1..]);
    forall i | 0 <= i < |rs|
      ensures Records(rs)[i] == split[i]
    {
      assert i > 0 ==> split[i] == Records(rs[1..])[i - 1] && rs[1..][i - 1] == rs[i];
    }
  }

  lemma RecordsCons(rs: seq<Receipt>)
    requires AllFit(rs) && |rs| > 0
    ensures AllFit(rs[1..])
    ensures Concat(Records(rs)) == Record(rs[0]) + Concat(Records(rs[1..]))
  {
    RecordsSplit(rs);
    ConcatCons(Record(rs[0]), Records(rs[1..]));
  }

  lemma {:induction false} RecordsReadBack(rs: seq<Receipt>)
    requires AllFit(rs)
    ensures |Concat(Records(rs))| == RECEIPT_CHARS * |rs|
    ensures ReadRecords(Concat(Records(rs))) == Ok(LowerReceipts(rs))
  {
    if |rs| == 0 {
      assert LowerReceipts(rs) == [];
    } else {
      RecordsCons(rs);
      LowerCons(rs);
      RecordReadsBack(rs[0]);
      RecordsReadBack(rs[1..]);
      WholeRecords(|rs[1..]|);
      ReadFirst(Record(rs[0]), Concat(Records(rs[1..])));
    }
  }

  /** Unpacking a packed batch returns its receipts, hex in lower case. */
  lemma RoundTrip(rs: seq<Receipt>)
    requires AllFit(rs)
    ensures |Blob(rs)| == 2 + RECEIPT_CHARS * |rs|
    ensures Unpack(Blob(rs)) == Ok(LowerReceipts(rs))
  {
    RecordsReadBack(rs);
    WholeRecords(|rs|);
    assert Blob(rs)[2..] == Concat(Records(rs));
  }

  lemma WholeRecords(n: nat)
    ensures RECEIPT_CHARS * n % RECEIPT_CHARS == 0
  {
  }

  // ---------------------------------------------------------------------------------------------
  // The layout, byte by byte
  // ---------------------------------------------------------------------------------------------

  /** What packReceipts says of a receipt, in terms of the characters of its fields. */
  lemma CheckIs(r: Receipt)
    ensures Check(r)
         == if !MatchesHex(r.receiptHash, 64) then Some(BadReceiptHash)
            else if !MatchesHex(r.payer, 40) then Some(BadPayer)
            else if !MatchesHex(r.payee, 40) then Some(BadPayee)
            else if 0 <= r.amountMinor < 0x1_0000_0000_0000_0000 then None
            else Some(AmountOutOfRange)
  {
    MatchesHexIff(r.receiptHash, 64);
    MatchesHexIff(r.payer, 40);
    MatchesHexIff(r.payee, 40);
  }

  /** 32 bytes of hash, 20 of payer, 20 of payee and 8 of amount. */
  predicate IsRecord(record: string, r: Receipt) {
    && |record| == 160 && Hexadecimal.IsNumeral(record[144..])
    && "0x" + record[..64] == Lower(r.receiptHash)
    && "0x" + record[64..104] == Lower(r.payer) && "0x" + record[104..144] == Lower(r.payee)
    && Hexadecimal.Parse(record[144..]) == r.amountMinor
  }

  lemma RecordIs(r: Receipt)
    requires Fits(r)
    ensures IsRecord(Record(r), r)
  {
    LowerHex(r.receiptHash, 64);
    LowerHex(r.payer, 40);
    LowerHex(r.payee, 40);
    Uint64IsHexPower();
    FixedWidth(Hexadecimal, r.amountMinor, 16);
    Slices(Lower(r.receiptHash[2..]), Lower(r.payer[2..]), Lower(r.payee[2..]),
           PadStart(Hexadecimal.Print(r.amountMinor), 16));
  }

  /** The i-th stretch of 80 bytes. */
  function Stretch(text: string, i: nat): (record: string)
    requires 160 * i + 160 <= |text|
    ensures |record| == 160
  {
    text[160 * i..160 * i + 160]
  }

  lemma StretchAfter(record: string, rest: string, i: nat)
    requires |record| == 160 && 160 * i + 160 <= |rest|
    ensures Stretch(record + rest, i + 1) == Stretch(rest, i)
  {
  }

  lemma FirstStretch(record: string, rest: string)
    requires |record| == 160
    ensures Stretch(record + rest, 0) == record
  {
  }

  lemma {:induction false} RecordAt(rs: seq<Receipt>, i: nat)
    requires AllFit(rs) && i < |rs|
    ensures |Concat(Records(rs))| == 160 * |rs|
    ensures Stretch(Concat(Records(rs)), i) == Record(rs[i])
  {
    hide Concat, Record, ReadRecord, ReadRecords, Stretch;
    RecordsReadBack(rs);
    RecordsCons(rs);
    RecordsReadBack(rs[1..]);
    RecordReadsBack(rs[0]);
    if i == 0 {
      FirstStretch(Record(rs[0]), Concat(Records(rs[1..])));
    } else {
      RecordAt(rs[1..], i - 1);
      StretchAfter(Record(rs[0]), Concat(Records(rs[1..])), i - 1);
    }
  }

  /** The i-th record of a packed batch stands at byte 80 * i. */
  lemma BlobLayout(rs: seq<Receipt>)
    requires AllFit(rs)
    ensures |Blob(rs)| == 2 + 160 * |rs| && Blob(rs)[..2] == "0x"
    ensures forall i | 0 <= i < |rs| :: IsRecord(Stretch(Blob(rs)[2..], i), rs[i])
  {
    RoundTrip(rs);
    assert Blob(rs)[2..] == Concat(Records(rs));
    hide Concat, Record, Stretch, IsRecord;
    forall i | 0 <= i < |rs|
      ensures IsRecord(Stretch(Blob(rs)[2..], i), rs[i])
    {
      RecordAt(rs, i);
      RecordIs(rs[i]);
    }
  }

  /** The receipt a stretch stands for: its fields as they are written, its amount as BigInt reads it. */
  predicate StandsFor(record: string, r: Receipt)
    requires |record| == 160
  {
    && r.receiptHash == "0x" + record[..64]
    && r.payer == "0x" + record[64..104] && r.payee == "0x" + record[104..144]
    && HexBigInt(record[144..]) == Ok(r.amountMinor)
  }

  predicate AllReadable(text: string)
    requires |text| % 160 == 0
  {
    forall i | 0 <= i < |text| / 160 :: HexBigInt(Stretch(text, i)[144..]).Ok?
  }

  lemma AllReadableCons(text: string)
    requires |text| % 160 == 0 && |text| > 0
    ensures |text[160..]| % 160 == 0
    ensures forall i | 0 <= i < |text[160..]| / 160 :: Stretch(text[160..], i) == Stretch(text, i + 1)
    ensures AllReadable(text) <==> HexBigInt(text[..160][144..]).Ok? && AllReadable(text[160..])
  {
    var rest := text[160..];
    forall i | 0 <= i < |rest| / 160
      ensures Stretch(rest, i) == Stretch(text, i + 1)
    {
    }
    assert Stretch(text, 0) == text[..160];
    if HexBigInt(text[..160][144..]).Ok? && AllReadable(rest) {
      forall i | 0 <= i < |text| / 160
        ensures HexBigInt(Stretch(text, i)[144..]).Ok?
      {
        assert i > 0 ==> Stretch(text, i) == Stretch(rest, i - 1);
      }
    }
    if AllReadable(text) {
      assert HexBigInt(Stretch(text, 0)[144..]).Ok?;
      forall i | 0 <= i < |rest| / 160
        ensures HexBigInt(Stretch(rest, i)[144..]).Ok?
      {
        assert HexBigInt(Stretch(text, i + 1)[144..]).Ok?;
      }
    }
  }

  lemma {:induction false} ReadRecordsIff(text: string)
    requires |text| % 160 == 0
    ensures ReadRecords(text).Ok? <==> AllReadable(text)
    ensures ReadRecords(text).Ok? ==>
              var rs := ReadRecords(text).value;
              |rs| == |text| / 160 && forall i | 0 <= i < |rs| :: StandsFor(Stretch(text, i), rs[i])
    ensures ReadRecords(text).Err? ==> ReadRecords(text).error == NotANumber
    decreases |text|
  {
    if |text| > 0 {
      hide HexBigInt, AllReadable;
      var rest := text[160..];
      AllReadableCons(text);
      ReadRecordsIff(rest);
      if ReadRecords(text).Ok? {
        var rs := ReadRecords(text).value;
        assert Stretch(text, 0) == text[..160];
        forall i | 0 <= i < |rs|
          ensures StandsFor(Stretch(text, i), rs[i])
        {
          if i > 0 {
            assert rs[i] == ReadRecords(rest).value[i - 1] && StandsFor(Stretch(rest, i - 1), rs[i]);
          }
        }
      }
    }
  }

  /** Which blobs unpackReceipts takes, what it returns for them, and which error it throws for the others. */
  lemma UnpackIff(blob: string)
    ensures Unpack(blob) == Err(InvalidBlob) <==> !("0x" <= blob && (|blob| - 2) % 160 == 0)
    ensures Unpack(blob).Ok? <==> "0x" <= blob && (|blob| - 2) % 160 == 0 && AllReadable(blob[2..])
    ensures Unpack(blob).Ok? ==>
              var rs := Unpack(blob).value;
              |blob| == 2 + 160 * |rs| && forall i | 0 <= i < |rs| :: StandsFor(Stretch(blob[2..], i), rs[i])
  {
    if "0x" <= blob && (|blob| - 2) % 160 == 0 {
      ReadRecordsIff(blob[2..]);
    }
  }

  method PackReceipts(keccak: Merkle.Keccak, receipts: seq<Receipt>) returns (batch: Result<PackedBatch, PackError>)
    ensures batch.Ok? <==> AllFit(receipts)
    ensures batch.Ok? ==> batch.value.blob == Blob(receipts) && batch.value.count == |receipts|
    ensures batch.Ok? ==> Merkle.RootOf(keccak, BatchCalldata.HashesOf(receipts)) == Ok(batch.value.root)
    ensures batch.Err? ==>
              exists i | 0 <= i < |receipts| :: AllFit(receipts[..i]) && Check(receipts[i]) == Some(batch.error)
  {
    hide Record;
    if |receipts| == 0 {
      return Ok(PackedBatch("0x", Merkle.ZERO_HASH, 0));
    }
    var parts: seq<string> := [];
    var leaves: seq<string> := [];
    for i := 0 to |receipts|
      invariant AllFit(receipts[..i])
      invariant parts == Records(receipts[..i])
      invariant leaves == BatchCalldata.HashesOf(receipts)[..i]
    {
      var failure := Check(receipts[i]);
      if failure.Some? {
        return Err(failure.value);
      }
      parts := parts + [Record(receipts[i])];
      leaves := leaves + [receipts[i].receiptHash];
      assert receipts[..i + 1] == receipts[..i] + [receipts[i]];
    }
    assert receipts[..|receipts|] == receipts;
    assert leaves == BatchCalldata.HashesOf(receipts);
    assert Merkle.AreHashes(leaves) by {
      assert forall k | 0 <= k < |receipts| :: Fits(receipts[k]);
    }
    var root := Merkle.MerkleRoot(keccak, leaves);
    return Ok(PackedBatch("0x" + Concat(parts), root.value, |receipts|));
  }

  method UnpackReceipts(blob: string) returns (receipts: Result<seq<Receipt>, UnpackError>)
    ensures receipts == Unpack(blob)
  {
    if |blob| < 2 || blob[..2] != "0x" || (|blob| - 2) % RECEIPT_CHARS != 0 {
      return Err(InvalidBlob);
    }
    var out: seq<Receipt> := [];
    var i := 2;
    PrependNothing(ReadRecords(blob[2..]));
    while i < |blob|
      invariant 2 <= i <= |blob| && (|blob| - i) % RECEIPT_CHARS == 0
      invariant ReadRecords(blob[2..]) == Prepend(out, ReadRecords(blob[i..]))
      decreases |blob| - i
    {
      assert blob[i..][..RECEIPT_CHARS] == blob[i..i + RECEIPT_CHARS];
      assert blob[i..][RECEIPT_CHARS..] == blob[i + RECEIPT_CHARS..];
      var receipt := ReadRecord(blob[i..i + RECEIPT_CHARS]);
      if receipt.Err? {
        return Err(receipt.error);
      }
      PrependOne(out, receipt.value, ReadRecords(blob[i + RECEIPT_CHARS..]));
      out := out + [receipt.value];
      i := i + RECEIPT_CHARS;
    }
    assert out + [] == out;
    return Ok(out);
  }

  lemma PrependNothing(rest: Result<seq<Receipt>, UnpackError>)
    ensures Prepend([], rest) == rest
  {
    if rest.Ok? {
      assert [] + rest.value == rest.value;
    }
  }

  function Prepend(out: seq<Receipt>, rest: Result<seq<Receipt>, UnpackError>): Result<seq<Receipt>, UnpackError> {
    if rest.Ok? then Ok(out + rest.value) else rest
  }

  lemma PrependOne(out: seq<Receipt>, r: Receipt, rest: Result<seq<Receipt>, UnpackError>)
    ensures Prepend(out, if rest.Ok? then Ok([r] + rest.value) else rest) == Prepend(out + [r], rest)
  {
    if rest.Ok? {
      assert out + ([r] + rest.value) == (out + [r]) + rest.value;
    }
  }

  // ---------------------------------------------------------------------------------------------
  // The two layouts side by side
  // ---------------------------------------------------------------------------------------------

  /** A batch both layouts take means the same in both. */
  lemma LayoutsAgree(rs: seq<Receipt>)
    requires AllFit(rs) && CompactCodec.Pack(rs).Ok?
    ensures Unpack(Blob(rs)).Ok?
    ensures CompactCodec.Unpack(CompactCodec.Pack(rs).value) == Ok(Unpack(Blob(rs)).value)
  {
    RoundTrip(rs);
    CompactTheorems.RoundTrip(rs);
  }

  lemma {:induction false} RecordsAreShort(rs: seq<Receipt>)
    requires AllFit(rs)
    ensures CompactTheorems.RecordsLength(rs) <= 88 * |rs|
  {
    if |rs| > 0 {
      RecordsAreShort(rs[1..]);
      var m := CompactCodec.Mantissa(rs[0].amountMinor);
      Uint64IsHexPower();
      PrintLength(Hexadecimal, m, 16);
    }
  }

  /**
   The compact layout is shorter as soon as the dictionary costs less than 36 bytes a receipt: with
   the two addresses of one escrow that is every batch of two or more.
   */
  lemma CompactIsShorter(rs: seq<Receipt>)
    requires AllFit(rs) && CompactCodec.Pack(rs).Ok?
    requires 4 + 20 * |CompactCodec.Dictionary(rs).value| < 36 * |rs|
    ensures |CompactCodec.Pack(rs).value| < |Blob(rs)|
  {
    RoundTrip(rs);
    CompactTheorems.PackedBlob(rs);
    RecordsAreShort(rs);
  }

  // ---------------------------------------------------------------------------------------------
  // Calldata gas (EIP-2028)
  // ---------------------------------------------------------------------------------------------

  const GAS_PER_ZERO_BYTE := 4
  const GAS_PER_NONZERO_BYTE := 16

  /** Gas of the bytes of a hex payload; a lone trailing digit is priced as a non-zero byte. */
  function Gas(hex: string): nat {
    if |hex| == 0 then 0
    else if |hex| == 1 then GAS_PER_NONZERO_BYTE
    else (if hex[..2] == "00" then GAS_PER_ZERO_BYTE else GAS_PER_NONZERO_BYTE) + Gas(hex[2..])
  }

  method CalldataGas(hexData: string) returns (gas: nat)
    ensures gas == Gas(if |hexData| >= 2 && hexData[..2] == "0x" then hexData[2..] else hexData)
  {
    var hex := if |hexData| >= 2 && hexData[..2] == "0x" then hexData[2..] else hexData;
    gas := 0;
    var i := 0;
    while i < |hex|
      invariant 0 <= i && gas + Gas(if i <= |hex| then hex[i..] else "") == Gas(hex)
      decreases |hex| - i
    {
      if i + 1 < |hex| {
        assert hex[i..][..2] == [hex[i], hex[i + 1]] && hex[i..][2..] == hex[i + 2..];
      }
      gas := gas + if hex[i] == '0' && i + 1 < |hex| && hex[i + 1] == '0'
                   then GAS_PER_ZERO_BYTE else GAS_PER_NONZERO_BYTE;
      i := i + 2;
    }
  }

  /** Gas is charged byte by byte: whole bytes can be priced apart. */
  lemma {:induction false} GasSplits(a: string, b: string)
    requires |a| % 2 == 0
    ensures Gas(a + b) == Gas(a) + Gas(b)
  {
    if |a| == 0 {
      assert a + b == b;
    } else {
      assert (a + b)[2..] == a[2..] + b && (a + b)[..2] == a[..2];
      GasSplits(a[2..], b);
    }
  }

  /** A byte costs 4 when both its digits are zero and 16 otherwise; so does a lone last digit. */
  lemma GasOfByte(high: char, low: char)
    ensures Gas([high, low]) == (if high == '0' && low == '0' then 4 else 16) && Gas([low]) == 16 && Gas([]) == 0
  {
    var byte := [high, low];
    assert byte[2..] == [] && byte[..2] == byte && "00" == ['0', '0'];
    assert byte == "00" <==> high == '0' && low == '0' by {
      assert byte[0] == high && byte[1] == low;
    }
  }

  lemma {:induction false} GasBounds(hex: string)
    requires |hex| % 2 == 0
    ensures 2 * |hex| <= Gas(hex) <= 8 * |hex|
  {
    if |hex| > 0 {
      GasBounds(hex[2..]);
    }
  }
}
