/**
  Store-key parsers (tracelistener/keys.go): length-prefixed delegation keys and the two CW20 key shapes.
*/
module Keys {
  import opened Wrappers

  type byte = b: int | 0 <= b < 256

  /** How a parse ends without a result: a reported error, or a slice bound past the end of its slice. */
  datatype Failure = Malformed | OutOfBounds

  // ---------------------------------------------------------------- hexadecimal

  function HexDigit(n: nat): char
    requires n < 16
  {
    "0123456789abcdef"[n]
  }

  /** hex.EncodeToString */
  function Hex(bs: seq<byte>): string {
    if bs == [] then "" else [HexDigit(bs[0] / 16), HexDigit(bs[0] % 16)] + Hex(bs[1..])
  }

  function DigitValue(c: char): Option<nat> {
    if '0' <= c <= '9' then Some((c - '0') as int)
    else if 'a' <= c <= 'f' then Some((c - 'a') as int + 10)
    else None
  }

  /** Reads two digits a byte, the more significant first. */
  function Unhex(s: string): Option<seq<byte>> {
    if s == "" then Some([])
    else if |s| == 1 then None
    else
      var high, low, rest := DigitValue(s[0]), DigitValue(s[1]), Unhex(s[2..]);
      if high.None? || low.None? || rest.None? || high.value >= 16 || low.value >= 16 then None
      else Some([(high.value * 16 + low.value) as byte] + rest.value)
  }

  lemma ReadsDigit(n: nat)
    requires n < 16
    ensures DigitValue(HexDigit(n)) == Some(n)
  {
  }

  /** Addresses can be read back from their hexadecimal form. */
  lemma {:induction false} HexRoundTrip(bs: seq<byte>)
    ensures Unhex(Hex(bs)) == Some(bs)
  {
    if bs != [] {
      HexRoundTrip(bs[1..]);
      ReadsByte(bs[0], Hex(bs[1..]));
      assert bs == [bs[0]] + bs[1..];
    }
  }

  lemma ReadsByte(b: byte, rest: string)
    requires Unhex(rest).Some?
    ensures Unhex([HexDigit(b / 16), HexDigit(b % 16)] + rest) == Some([b] + Unhex(rest).value)
  {
    hide HexDigit, DigitValue;
    var s := [HexDigit(b / 16), HexDigit(b % 16)] + rest;
    assert s[0] == HexDigit(b / 16) && s[1] == HexDigit(b % 16) && s[2..] == rest;
    ReadsDigit(b / 16);
    ReadsDigit(b % 16);
  }

  /** Two lower-case digits a byte, the more significant first. */
  lemma {:induction false} HexDigits(bs: seq<byte>, i: nat)
    requires i < |bs|
    ensures |Hex(bs)| == 2 * |bs|
    ensures Hex(bs)[2 * i] == "0123456789abcdef"[bs[i] / 16] && Hex(bs)[2 * i + 1] == "0123456789abcdef"[bs[i] % 16]
  {
    if |bs| > 1 {
      HexDigits(bs[1..], if i > 0 then i - 1 else 0);
      var first, rest := [HexDigit(bs[0] / 16), HexDigit(bs[0] % 16)], Hex(bs[1..]);
      assert Hex(bs) == first + rest;
      if i > 0 {
        assert (first + rest)[2 * i] == rest[2 * (i - 1)] && (first + rest)[2 * i + 1] == rest[2 * (i - 1) + 1];
      }
    }
  }

  lemma HexInjective(a: seq<byte>, b: seq<byte>)
    requires Hex(a) == Hex(b)
    ensures a == b
  {
    HexRoundTrip(a);
    HexRoundTrip(b);
  }

  // ---------------------------------------------------------------- delegation keys

  function FromLengthPrefix(rawData: seq<byte>): Result<seq<byte>, Failure> {
    if rawData == [] then Err(Malformed)
    else if |rawData| - 1 != rawData[0] then Err(Malformed)
    else Ok(rawData[1..])
  }

  function LengthPrefixed(data: seq<byte>): seq<byte>
    requires |data| <= 255
  {
    [|data|] + data
  }

  const MAX_DELEGATION_KEY := 1 + 1 + 255 + 1 + 255

  datatype Addresses = Addresses(delegator: string, validator: string)

  datatype Parts = Parts(delegator: seq<byte>, validator: seq<byte>)

  /** The delegator's length is a byte, so adding one for its prefix wraps at 255. */
  function DelegationParts(key: seq<byte>): Result<Parts, Failure> {
    if |key| < 3 || |key| > MAX_DELEGATION_KEY then Err(Malformed)
    else
      var addresses := key[1..];
      var delAddrLen := addresses[0];
      if |addresses| < delAddrLen then Err(Malformed)
      else
        var totalPrefixedFirstAddressSz: int := (delAddrLen as int + 1) % 256;
        // even when the first slice fits the capacity, the slice past it starts beyond the length
        if totalPrefixedFirstAddressSz > |addresses| then Err(OutOfBounds)
        else
          var del := FromLengthPrefix(addresses[..totalPrefixedFirstAddressSz]);
          if del.Err? then Err(del.error)
          else
            var val := FromLengthPrefix(addresses[totalPrefixedFirstAddressSz..]);
            if val.Err? then Err(val.error)
            else Ok(Parts(del.value, val.value))
  }

  function SplitDelegationKey(key: seq<byte>): Result<Addresses, Failure> {
    var parts := DelegationParts(key);
    if parts.Err? then Err(parts.error)
    else Ok(Addresses(Hex(parts.value.delegator), Hex(parts.value.validator)))
  }

  /** On the wire: the prefix byte, and each address behind one byte that counts it. */
  function DelegationKey(prefix: byte, del: seq<byte>, val: seq<byte>): (key: seq<byte>)
    requires |del| <= 255 && |val| <= 255
    ensures key == [prefix, |del|] + del + [|val|] + val
  {
    [prefix] + LengthPrefixed(del) + LengthPrefixed(val)
  }

  lemma FromLengthPrefixLanguage(rawData: seq<byte>)
    ensures FromLengthPrefix(rawData).Ok? <==> exists d: seq<byte> :: |d| <= 255 && rawData == LengthPrefixed(d)
    ensures forall d: seq<byte> :: |d| <= 255 && rawData == LengthPrefixed(d) ==> FromLengthPrefix(rawData) == Ok(d)
  {
    if FromLengthPrefix(rawData).Ok? {
      assert rawData == LengthPrefixed(rawData[1..]);
    }
  }

  lemma ReadsOwnPrefix(data: seq<byte>)
    requires |data| <= 255
    ensures FromLengthPrefix(LengthPrefixed(data)) == Ok(data)
  {
  }

  lemma CutAt<T>(a: seq<T>, b: seq<T>)
    ensures (a + b)[..|a|] == a && (a + b)[|a|..] == b
  {
  }

  lemma ParsesShortDelegator(prefix: byte, del: seq<byte>, val: seq<byte>)
    requires |del| <= 254 && |val| <= 255
    ensures DelegationParts(DelegationKey(prefix, del, val)) == Ok(Parts(del, val))
  {
    var key := DelegationKey(prefix, del, val);
    var d, v := LengthPrefixed(del), LengthPrefixed(val);
    assert key == [prefix] + (d + v);
    CutAt([prefix], d + v);
    assert key[1..] == d + v;
    CutAt(d, v);
    assert |d| == |del| + 1 && (d + v)[0] == |del|;
    ReadsOwnPrefix(del);
    ReadsOwnPrefix(val);
  }

  lemma RefusesLongestDelegator(prefix: byte, del: seq<byte>, val: seq<byte>)
    requires |del| == 255 && |val| <= 255
    ensures DelegationParts(DelegationKey(prefix, del, val)) == Err(Malformed)
  {
    var addresses := DelegationKey(prefix, del, val)[1..];
    assert addresses[0] == 255;
    assert addresses[..0] == [];
  }

  /**
    On a well-formed key the parser returns both addresses, except that a delegator of 255 bytes,
    which the format and the source's own documentation allow, is always refused.
  */
  lemma ParsesWellFormedIff(prefix: byte, del: seq<byte>, val: seq<byte>)
    requires |del| <= 255 && |val| <= 255
    ensures SplitDelegationKey(DelegationKey(prefix, del, val)) == Ok(Addresses(Hex(del), Hex(val))) <==> |del| <= 254
    ensures |del| == 255 ==> SplitDelegationKey(DelegationKey(prefix, del, val)) == Err(Malformed)
  {
    if |del| <= 254 {
      ParsesShortDelegator(prefix, del, val);
    } else {
      RefusesLongestDelegator(prefix, del, val);
    }
  }

  lemma ReadsDelegationKey(key: seq<byte>) returns (del: seq<byte>, val: seq<byte>)
    requires SplitDelegationKey(key).Ok?
    ensures |del| <= 254 && |val| <= 255 && key == DelegationKey(key[0], del, val)
  {
    var addresses := key[1..];
    var d := addresses[0];
    del, val := addresses[1..d + 1], addresses[d + 2..];
    assert addresses[..d + 1] == LengthPrefixed(del) && addresses[d + 1..] == LengthPrefixed(val);
  }

  /**
    The language of the parser: it succeeds exactly on prefix, length-prefixed delegator of at most 254 bytes,
    length-prefixed validator; it slices out of bounds exactly on keys whose second byte counts all the bytes
    that follow the first, itself included; everything else is reported as malformed.
  */
  lemma DelegationKeyLanguage(key: seq<byte>)
    ensures SplitDelegationKey(key).Ok? <==>
              exists prefix, del, val :: |del| <= 254 && |val| <= 255 && key == DelegationKey(prefix, del, val)
    ensures SplitDelegationKey(key) == Err(OutOfBounds) <==> |key| >= 3 && key[1] == |key| - 1 != 255
  {
    if SplitDelegationKey(key).Ok? {
      var del, val := ReadsDelegationKey(key);
      assert key == DelegationKey(key[0], del, val);
    }
    forall prefix, del, val | |del| <= 254 && |val| <= 255 && key == DelegationKey(prefix, del, val)
      ensures SplitDelegationKey(key).Ok?
    {
      ParsesWellFormedIff(prefix, del, val);
    }
  }

  /** Two keys with the same prefix byte that name the same addresses are the same key. */
  lemma SplitDelegationKeyInjective(a: seq<byte>, b: seq<byte>)
    requires SplitDelegationKey(a).Ok? && SplitDelegationKey(a) == SplitDelegationKey(b)
    requires a[0] == b[0]
    ensures a == b
  {
    DelegationKeyLanguage(a);
    DelegationKeyLanguage(b);
    var p, d, v :| |d| <= 254 && |v| <= 255 && a == DelegationKey(p, d, v);
    var p', d', v' :| |d'| <= 254 && |v'| <= 255 && b == DelegationKey(p', d', v');
    ParsesWellFormedIff(p, d, v);
    ParsesWellFormedIff(p', d', v');
    HexInjective(d, d');
    HexInjective(v, v');
  }

  // ---------------------------------------------------------------- CW20 keys

  const WASM_CONTRACT_STORE_PREFIX: byte := 0x03
  /** 0, 7, "balance" */
  const BALANCE_KEY: seq<byte> := [0, 7, 98, 97, 108, 97, 110, 99, 101]
  /** "token_info" */
  const TOKEN_INFO_KEY: seq<byte> := [116, 111, 107, 101, 110, 95, 105, 110, 102, 111]

  predicate HasPrefix(s: seq<byte>, prefix: seq<byte>) {
    |prefix| <= |s| && s[..|prefix|] == prefix
  }

  const MIN_BALANCE_KEY := 1 + 32 + 2 + 43
  const MAX_BALANCE_KEY := MIN_BALANCE_KEY + 510

  datatype Balance = Balance(contract: string, holder: string)

  /** decode stands for the bech32 decoding of the holder's address. */
  function SplitCW20BalanceKey(key: seq<byte>, decode: seq<byte> -> Option<seq<byte>>): Result<Balance, Failure> {
    if |key| < MIN_BALANCE_KEY || |key| > MAX_BALANCE_KEY then Err(Malformed)
    else if !HasPrefix(key, [WASM_CONTRACT_STORE_PREFIX]) then Err(Malformed)
    else if !HasPrefix(key[33..], BALANCE_KEY) then Err(Malformed)
    else
      var holder := decode(key[42..]);
      if holder.None? then Err(Malformed) else Ok(Balance(Hex(key[1..33]), Hex(holder.value)))
  }

  function SplitCW20TokenInfoKey(key: seq<byte>): Result<string, Failure> {
    if |key| != 1 + 32 + 10 then Err(Malformed)
    else if !HasPrefix(key, [WASM_CONTRACT_STORE_PREFIX]) then Err(Malformed)
    else if !HasPrefix(key[33..], TOKEN_INFO_KEY) then Err(Malformed)
    else Ok(Hex(key[1..33]))
  }

  function BalanceKey(contract: seq<byte>, holder: seq<byte>): (key: seq<byte>)
    ensures key == [3] + contract + [0, 7, 98, 97, 108, 97, 110, 99, 101] + holder
  {
    [WASM_CONTRACT_STORE_PREFIX] + contract + BALANCE_KEY + holder
  }

  function TokenInfoKey(contract: seq<byte>): (key: seq<byte>)
    ensures key == [3] + contract + [116, 111, 107, 101, 110, 95, 105, 110, 102, 111]
  {
    [WASM_CONTRACT_STORE_PREFIX] + contract + TOKEN_INFO_KEY
  }

  lemma BalanceKeyParts(contract: seq<byte>, holder: seq<byte>)
    requires |contract| == 32
    ensures var key := BalanceKey(contract, holder);
            && key[0] == WASM_CONTRACT_STORE_PREFIX && key[1..33] == contract
            && key[33..] == BALANCE_KEY + holder && key[42..] == holder
  {
    var key := BalanceKey(contract, holder);
    assert key == [WASM_CONTRACT_STORE_PREFIX] + contract + (BALANCE_KEY + holder);
    CutAt([WASM_CONTRACT_STORE_PREFIX] + contract, BALANCE_KEY + holder);
    CutAt([WASM_CONTRACT_STORE_PREFIX] + contract + BALANCE_KEY, holder);
    assert key[1..33] == contract;
  }

  /**
    A balance key is accepted exactly when it is built from a 32-byte contract and a decodable holder string of
    36 to 546 bytes; no key is both a balance key and a token-info key.
  */
  lemma BalanceKeyLanguage(key: seq<byte>, decode: seq<byte> -> Option<seq<byte>>)
    ensures SplitCW20BalanceKey(key, decode).Ok? <==>
              exists contract: seq<byte>, holder: seq<byte> ::
                |contract| == 32 && 36 <= |holder| <= 546 && decode(holder).Some? && key == BalanceKey(contract, holder)
    ensures forall contract: seq<byte>, holder: seq<byte> ::
              && |contract| == 32 && 36 <= |holder| <= 546 && decode(holder).Some?
              && key == BalanceKey(contract, holder)
              ==>
                SplitCW20BalanceKey(key, decode) == Ok(Balance(Hex(contract), Hex(decode(holder).value)))
    ensures SplitCW20BalanceKey(key, decode).Ok? ==> SplitCW20TokenInfoKey(key).Err?
  {
    if SplitCW20BalanceKey(key, decode).Ok? {
      assert key[33..][9..] == key[42..];
      assert key == BalanceKey(key[1..33], key[42..]);
    }
    forall contract: seq<byte>, holder: seq<byte>
      | |contract| == 32 && 36 <= |holder| <= 546 && decode(holder).Some? && key == BalanceKey(contract, holder)
      ensures SplitCW20BalanceKey(key, decode) == Ok(Balance(Hex(contract), Hex(decode(holder).value)))
    {
      BalanceKeyParts(contract, holder);
    }
  }

  lemma TokenInfoKeyLanguage(key: seq<byte>)
    ensures SplitCW20TokenInfoKey(key).Ok?
       <==> exists contract: seq<byte> :: |contract| == 32 && key == TokenInfoKey(contract)
    ensures forall contract: seq<byte> :: |contract| == 32 && key == TokenInfoKey(contract) ==>
              SplitCW20TokenInfoKey(key) == Ok(Hex(contract))
  {
    if SplitCW20TokenInfoKey(key).Ok? {
      assert key[33..][..10] == key[33..];
      assert key == TokenInfoKey(key[1..33]);
    }
    forall contract: seq<byte> | |contract| == 32 && key == TokenInfoKey(contract)
      ensures SplitCW20TokenInfoKey(key) == Ok(Hex(contract))
    {
      assert key[1..33] == contract && key[33..] == TOKEN_INFO_KEY;
    }
  }
}
