/** `0x`-prefixed hexadecimal text: the regular expressions and `toLowerCase` of the source. */
module Hex {
  import opened Digits

  predicate IsHexChar(c: char) {
    '0' <= c <= '9' || 'a' <= c <= 'f' || 'A' <= c <= 'F'
  }

  predicate IsHexText(s: string) {
    forall i | 0 <= i < |s| :: IsHexChar(s[i])
  }

  /** /^0x[0-9a-fA-F]{digits}$/ */
  predicate IsHex(s: string, digits: nat) {
    |s| == digits + 2 && s[0] == '0' && s[1] == 'x' && IsHexText(s[2..])
  }

  /** The same with the characters written out: two letters of prefix, then digits of either case. */
  predicate MatchesHex(s: string, digits: nat) {
    |s| == digits + 2 && s[..2] == "0x" && forall i | 2 <= i < |s| :: s[i] in "0123456789abcdefABCDEF"
  }

  lemma MatchesHexIff(s: string, digits: nat)
    ensures MatchesHex(s, digits) <==> IsHex(s, digits)
  {
    if |s| == digits + 2 {
      assert s[..2] == [s[0], s[1]];
      assert forall i | 2 <= i < |s| :: s[2..][i - 2] == s[i];
      forall i | 2 <= i < |s|
        ensures s[i] in "0123456789abcdefABCDEF" <==> IsHexChar(s[i])
      {
        HexCharIff(s[i]);
      }
    }
  }

  lemma HexCharIff(c: char)
    ensures c in "0123456789abcdefABCDEF" <==> IsHexChar(c)
  {
    var all := "0123456789abcdefABCDEF";
    if '0' <= c <= '9' {
      assert all[c as int - '0' as int] == c;
    } else if 'a' <= c <= 'f' {
      assert all[10 + (c as int - 'a' as int)] == c;
    } else if 'A' <= c <= 'F' {
      assert all[16 + (c as int - 'A' as int)] == c;
    }
  }

  /** Lower case takes the six upper-case hex digits to the lower-case ones, and keeps the other digits. */
  lemma LowerOfHex(s: string, i: nat)
    requires i < |s| && s[i] in "0123456789abcdefABCDEF"
    ensures exists k :: 0 <= k < 16 && Lower(s)[i] == "0123456789abcdef"[k]
                        && (s[i] == "0123456789abcdef"[k] || s[i] == "0123456789ABCDEF"[k])
  {
    HexCharIff(s[i]);
    var c := s[i];
    var k := if c <= '9' then c as int - '0' as int
             else if c <= 'F' then c as int - 'A' as int + 10
             else c as int - 'a' as int + 10;
    assert Lower(s)[i] == "0123456789abcdef"[k];
  }

  function LowerChar(c: char): char {
    if 'A' <= c <= 'Z' then (c as int + 32) as char else c
  }

  /** `s.toLowerCase()` on ASCII text. */
  function Lower(s: string): (l: string)
    ensures |l| == |s|
    ensures forall i | 0 <= i < |s| :: l[i] == LowerChar(s[i])
  {
    seq(|s|, i requires 0 <= i < |s| => LowerChar(s[i]))
  }

  lemma LowerConcat(s: string, t: string)
    ensures Lower(s + t) == Lower(s) + Lower(t)
  {
  }

  lemma LowerIdempotent(s: string)
    ensures Lower(Lower(s)) == Lower(s)
  {
  }

  /** Lower-cased hex digits are numerals, and hex numerals are their own lower case. */
  lemma LowerNumeral(s: string)
    ensures IsHexText(s) ==> Hexadecimal.IsNumeral(Lower(s))
    ensures Hexadecimal.IsNumeral(s) ==> IsHexText(s) && Lower(s) == s
  {
    if IsHexText(s) {
      forall i | 0 <= i < |s|
        ensures Hexadecimal.IsDigit(Lower(s)[i])
      {
        assert IsHexChar(s[i]);
      }
    }
    if Hexadecimal.IsNumeral(s) {
      assert forall i | 0 <= i < |s| :: Hexadecimal.IsDigit(s[i]);
      assert Lower(s) == s;
    }
  }

  lemma LowerHex(s: string, digits: nat)
    requires IsHex(s, digits)
    ensures IsHex(Lower(s), digits)
    ensures Lower(s) == "0x" + Lower(s[2..])
    ensures Hexadecimal.IsNumeral(Lower(s[2..]))
  {
    LowerNumeral(s[2..]);
    assert s == "0x" + s[2..];
    LowerConcat("0x", s[2..]);
    assert Lower("0x") == "0x";
    LowerNumeral(Lower(s[2..]));
    assert Lower(s)[2..] == Lower(s[2..]);
  }
}
