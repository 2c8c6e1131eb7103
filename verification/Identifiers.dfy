/** Token identifiers: a collection, a dash and the nonce in hexadecimal. */
module Identifiers {
  import opened Strings

  function HexDigitValue(c: char): nat {
    if '0' <= c <= '9' then c as int - '0' as int
    else if 'a' <= c <= 'f' then c as int - 'a' as int + 10
    else 0
  }

  predicate IsHexDigit(c: char) {
    '0' <= c <= '9' || 'a' <= c <= 'f'
  }

  function HexDigit(d: nat): (c: char)
    requires d < 16
    ensures HexDigitValue(c) == d && IsHexDigit(c)
  {
    if d < 10 then ('0' as int + d) as char else ('a' as int + d - 10) as char
  }

  /** What `parseInt(_, 16)` reads. */
  function HexValue(s: string): nat {
    if s == "" then 0 else 16 * HexValue(s[..|s| - 1]) + HexDigitValue(s[|s| - 1])
  }

  /** `toString(16)` on a non-negative integer. */
  function Hex(n: nat): (s: string)
    ensures s != ""
  {
    if n < 16 then [HexDigit(n)] else Hex(n / 16) + [HexDigit(n % 16)]
  }

  function NominateVal(value: nat): string {
    var response := Hex(value);
    if |response| % 2 != 0 then "0" + response else response
  }

  lemma {:induction false} HexRoundTrip(n: nat)
    ensures HexValue(Hex(n)) == n && forall c :: c in Hex(n) ==> IsHexDigit(c)
  {
    if n < 16 {
      assert [HexDigit(n)][..0] == "";
    } else {
      HexRoundTrip(n / 16);
      var s := Hex(n / 16) + [HexDigit(n % 16)];
      assert s[..|s| - 1] == Hex(n / 16);
    }
  }

  lemma {:induction false} LeadingZero(s: string)
    ensures HexValue("0" + s) == HexValue(s)
  {
    if s == "" {
      assert ("0" + s)[..0] == "";
    } else {
      LeadingZero(s[..|s| - 1]);
      assert ("0" + s)[..|s|] == "0" + s[..|s| - 1];
    }
  }

  /** Nonces are written with whole bytes and read back unchanged. */
  lemma NominateRoundTrip(value: nat)
    ensures |NominateVal(value)| % 2 == 0 && |NominateVal(value)| > 0
    ensures HexValue(NominateVal(value)) == value
    ensures forall c :: c in NominateVal(value) ==> IsHexDigit(c)
  {
    HexRoundTrip(value);
    LeadingZero(Hex(value));
    assert IsHexDigit('0');
  }

  lemma {:induction false} HexNoLeadingZero(n: nat)
    ensures n > 0 ==> Hex(n)[0] != '0'
    ensures n == 0 ==> |Hex(n)| == 1
  {
    if n >= 16 {
      HexNoLeadingZero(n / 16);
    } else if n > 0 {
      assert HexDigitValue('0') == 0;
    }
  }

  /** No byte more than needed: only zero itself is written with a zero byte. */
  lemma NominateShortest(value: nat)
    ensures value > 0 ==> NominateVal(value)[..2] != "00"
    ensures value == 0 ==> |NominateVal(value)| == 2
  {
    HexNoLeadingZero(value);
    NominateRoundTrip(value);
    var s := NominateVal(value);
    assert value > 0 ==> s[0] != '0' || s[1] != '0';
    assert s[..2][0] == s[0] && s[..2][1] == s[1];
  }

  datatype Identifier = Identifier(collection: string, nonce: string)

  function GetCollectionAndNonceFromIdentifier(identifier: string): Identifier {
    var parts := Split(identifier, '-');
    var cut := if |parts| < 2 then |parts| else 2;
    Identifier(Join(parts[..cut], '-'), Join(parts[cut..], '-'))
  }

  /** The two halves always rejoin to the identifier. */
  lemma HalvesRejoin(identifier: string)
    ensures var halves := GetCollectionAndNonceFromIdentifier(identifier);
      identifier == halves.collection ||
      identifier == halves.collection + "-" + halves.nonce
    ensures |Split(identifier, '-')| <= 2 ==>
      GetCollectionAndNonceFromIdentifier(identifier) == Identifier(identifier, "")
    ensures |Split(identifier, '-')| > 2 ==>
      |Split(GetCollectionAndNonceFromIdentifier(identifier).collection, '-')| == 2
  {
    var parts := Split(identifier, '-');
    JoinSplit(identifier, '-');
    PartsWithoutSeparator(identifier, '-');
    if |parts| > 2 {
      SplitJoin(parts[..2], '-');
    }
    if |parts| <= 2 {
      assert parts[..|parts|] == parts && parts[|parts|..] == [];
    } else {
      JoinConcat(parts[..2], parts[2..], '-');
      assert parts == parts[..2] + parts[2..];
    }
  }

  /** Splitting `collection-nonce` gives back both parts for every nonce exactly
      when the collection contains one dash. */
  lemma IdentifierRoundTripIff(collection: string, value: nat)
    ensures GetCollectionAndNonceFromIdentifier(collection + "-" + NominateVal(value))
         == Identifier(collection, NominateVal(value))
       <==> |Split(collection, '-')| == 2
  {
    var nonce, cs := NominateVal(value), Split(collection, '-');
    NominateRoundTrip(value);
    SplitConcat(collection, nonce, '-');
    SplitNone(nonce, '-');
    JoinSplit(collection, '-');
    var parts := cs + [nonce];
    assert Split(collection + "-" + nonce, '-') == parts;
    if |cs| == 2 {
      assert parts[..2] == cs && parts[2..] == [nonce];
    } else if |cs| == 1 {
      assert parts[..2] == parts && parts[2..] == [];
    } else {
      assert parts[..2] == cs[..2];
      JoinConcat(cs[..2], cs[2..], '-');
      assert cs == cs[..2] + cs[2..];
      assert |Join(cs[..2], '-')| < |collection|;
    }
  }
}
