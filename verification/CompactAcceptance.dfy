/**
 Which batches packReceiptsCompact takes, in terms of the receipts alone: the patterns of their fields in
 either letter case, the range of their amounts, and how many distinct addresses occur.
 */
module CompactAcceptance {
  import opened Base
  import opened Digits
  import opened Hex
  import opened Receipts
  import opened CompactCodec

  /** The distinct addresses of a batch, in lower case. */
  function AddressesIn(rs: seq<Receipt>): set<string> {
    (set i | 0 <= i < |rs| :: Lower(rs[i].payer)) + (set i | 0 <= i < |rs| :: Lower(rs[i].payee))
  }

  /** A uint256: an amount of at most 256 bits. */
  predicate IsUint256(amount: int) {
    0 <= amount < 0x1_0000_0000_0000_0000_0000_0000_0000_0000_0000_0000_0000_0000_0000_0000_0000_0000
  }

  predicate IsWellFormed(r: Receipt) {
    && MatchesHex(r.receiptHash, 64) && IsUint256(r.amountMinor)
    && MatchesHex(r.payer, 40) && MatchesHex(r.payee, 40)
  }

  predicate AreWellFormed(rs: seq<Receipt>) {
    forall i | 0 <= i < |rs| :: IsWellFormed(rs[i])
  }

  /** What the packer says of a receipt that follows receipts with these addresses. */
  function FaultOf(known: set<string>, r: Receipt): Option<PackError> {
    if !MatchesHex(r.receiptHash, 64) then Some(BadReceiptHash)
    else if !IsUint256(r.amountMinor) then Some(AmountOutOfRange)
    else if !MatchesHex(r.payer, 40) then Some(BadPayer)
    else if |known + {Lower(r.payer)}| > 255 then Some(TooManyAddresses)
    else if !MatchesHex(r.payee, 40) then Some(BadPayee)
    else if |known + {Lower(r.payer), Lower(r.payee)}| > 255 then Some(TooManyAddresses)
    else None
  }

  function Prefixed(keys: seq<string>): set<string> {
    set i | 0 <= i < |keys| :: "0x" + keys[i]
  }

  lemma {:induction false} PrefixedSize(keys: seq<string>)
    requires Distinct(keys)
    ensures |Prefixed(keys)| == |keys|
  {
    if |keys| > 0 {
      var n := |keys| - 1;
      PrefixedSize(keys[..n]);
      PrefixedSnoc(keys[..n], keys[n]);
      assert keys[..n] + [keys[n]] == keys;
      forall i | 0 <= i < n
        ensures "0x" + keys[i] != "0x" + keys[n]
      {
        assert ("0x" + keys[i])[2..] == keys[i] && ("0x" + keys[n])[2..] == keys[n];
      }
    }
  }

  lemma PrefixedSnoc(keys: seq<string>, key: string)
    ensures Prefixed(keys + [key]) == Prefixed(keys) + {"0x" + key}
  {
    var longer := keys + [key];
    assert longer[|keys|] == key;
    forall k | k in Prefixed(keys)
      ensures k in Prefixed(longer)
    {
      var i :| 0 <= i < |keys| && "0x" + keys[i] == k;
      assert longer[i] == keys[i];
    }
  }

  lemma LowerIsPrefixedKey(address: string)
    requires IsHex(address, 40)
    ensures Lower(address) == "0x" + Key(address)
  {
    LowerHex(address, 40);
  }

  /** An address is interned exactly when it matches the pattern and leaves at most 255 addresses. */
  lemma InternIff(keys: seq<string>, address: string, bad: PackError)
    requires Distinct(keys) && |keys| <= 255
    ensures var r := Intern(keys, address, bad);
            && (r.Ok? <==> IsHex(address, 40) && |Prefixed(keys) + {Lower(address)}| <= 255)
            && (r.Ok? ==>
                  && Distinct(r.value) && |r.value| <= 255
                  && Prefixed(r.value) == Prefixed(keys) + {Lower(address)})
            && (r.Err? ==> r.error == if IsHex(address, 40) then TooManyAddresses else bad)
  {
    PrefixedSize(keys);
    if IsHex(address, 40) {
      LowerIsPrefixedKey(address);
      var key := Key(address);
      if key in keys {
        var i :| 0 <= i < |keys| && keys[i] == key;
        assert Prefixed(keys) + {Lower(address)} == Prefixed(keys);
      } else {
        PrefixedSnoc(keys, key);
        PrefixedSize(keys + [key]);
      }
    }
  }

  lemma AddReceiptIff(keys: seq<string>, r: Receipt)
    requires Distinct(keys) && |keys| <= 255
    ensures var k := AddReceipt(keys, r);
            && (k.Err? <==> FaultOf(Prefixed(keys), r).Some?)
            && (k.Err? ==> FaultOf(Prefixed(keys), r) == Some(k.error))
            && (k.Ok? ==> Distinct(k.value) && |k.value| <= 255
                          && Prefixed(k.value) == Prefixed(keys) + {Lower(r.payer), Lower(r.payee)})
  {
    hide Intern, MatchesHex, IsHex, Prefixed, Distinct;
    MatchesHexIff(r.receiptHash, 64);
    MatchesHexIff(r.payer, 40);
    MatchesHexIff(r.payee, 40);
    InternIff(keys, r.payer, BadPayer);
    var withPayer := Intern(keys, r.payer, BadPayer);
    if withPayer.Ok? {
      InternIff(withPayer.value, r.payee, BadPayee);
      var known := Prefixed(keys);
      assert known + {Lower(r.payer)} + {Lower(r.payee)} == known + {Lower(r.payer), Lower(r.payee)};
    }
  }

  lemma AddressesSnoc(rs: seq<Receipt>)
    requires |rs| > 0
    ensures var (front, last) := (rs[..|rs| - 1], rs[|rs| - 1]);
            AddressesIn(rs) == AddressesIn(front) + {Lower(last.payer), Lower(last.payee)}
  {
    var front := rs[..|rs| - 1];
    assert forall i | 0 <= i < |front| :: front[i] == rs[i];
  }

  lemma SmallerSet(a: set<string>, b: set<string>)
    requires a <= b
    ensures |a| <= |b|
  {
    assert b == a + (b - a);
  }

  /** A receipt follows well-formed receipts without a fault exactly when the longer batch is acceptable. */
  lemma NoFaultIff(known: set<string>, r: Receipt)
    ensures FaultOf(known, r).None?
            <==> IsWellFormed(r) && |known + {Lower(r.payer), Lower(r.payee)}| <= 255
  {
    SmallerSet(known + {Lower(r.payer)}, known + {Lower(r.payer), Lower(r.payee)});
  }

  lemma {:induction false} DictionaryIff(rs: seq<Receipt>)
    ensures Dictionary(rs).Ok? <==> AreWellFormed(rs) && |AddressesIn(rs)| <= 255
    ensures Dictionary(rs).Ok? ==>
              var keys := Dictionary(rs).value;
              Distinct(keys) && |keys| <= 255 && Prefixed(keys) == AddressesIn(rs)
  {
    hide AddReceipt, FaultOf, IsWellFormed, AreWellFormed, AddressesIn, Prefixed, Distinct;
    if |rs| == 0 {
      EmptyBatch(rs);
    } else {
      var front, last := rs[..|rs| - 1], rs[|rs| - 1];
      DictionaryIff(front);
      AddressesSnoc(rs);
      SmallerSet(AddressesIn(front), AddressesIn(rs));
      NoFaultIff(AddressesIn(front), last);
      WellFormedSnoc(rs);
      if Dictionary(front).Ok? {
        AddReceiptIff(Dictionary(front).value, last);
      }
    }
  }

  lemma EmptyBatch(rs: seq<Receipt>)
    requires |rs| == 0
    ensures AreWellFormed(rs) && AddressesIn(rs) == {} == Prefixed([]) && Distinct([])
  {
  }

  lemma WellFormedSnoc(rs: seq<Receipt>)
    requires |rs| > 0
    ensures AreWellFormed(rs) <==> AreWellFormed(rs[..|rs| - 1]) && IsWellFormed(rs[|rs| - 1])
  {
    assert rs == rs[..|rs| - 1] + [rs[|rs| - 1]];
  }

  /** The batches the packer takes. */
  ghost predicate IsAcceptable(rs: seq<Receipt>) {
    |rs| <= 65535 && AreWellFormed(rs) && |AddressesIn(rs)| <= 255
  }

  /**
   A batch is packed exactly when it has at most 65535 receipts, each with hash and addresses of the
   patterns in either letter case and an amount that fits uint256, and with at most 255 distinct
   lower-cased addresses between them.
   */
  lemma PackIff(rs: seq<Receipt>)
    ensures Pack(rs).Ok? <==> IsAcceptable(rs)
  {
    DictionaryIff(rs);
  }

  /** The first receipt that does not fit decides the error. */
  lemma PackErrorIsFirst(rs: seq<Receipt>)
    requires Pack(rs).Err?
    ensures |rs| > 65535 ==> Pack(rs).error == TooManyReceipts
    ensures |rs| <= 65535 ==>
              exists i :: 0 <= i < |rs| && IsAcceptable(rs[..i])
                          && FaultOf(AddressesIn(rs[..i]), rs[i]) == Some(Pack(rs).error)
  {
    if |rs| <= 65535 {
      DictionaryError(rs);
    }
  }

  lemma {:induction false} DictionaryError(rs: seq<Receipt>)
    requires |rs| <= 65535 && Dictionary(rs).Err?
    ensures exists i :: 0 <= i < |rs| && IsAcceptable(rs[..i])
                        && FaultOf(AddressesIn(rs[..i]), rs[i]) == Some(Dictionary(rs).error)
  {
    hide FaultOf, AddressesIn;
    var front := rs[..|rs| - 1];
    if Dictionary(front).Err? {
      DictionaryError(front);
      var i :| 0 <= i < |front| && IsAcceptable(front[..i])
        && FaultOf(AddressesIn(front[..i]), front[i]) == Some(Dictionary(front).error);
      assert front[..i] == rs[..i] && front[i] == rs[i];
    } else {
      DictionaryIff(front);
      AddReceiptIff(Dictionary(front).value, rs[|rs| - 1]);
    }
  }
}
