/**
  The pure helpers of the donation service (src/services/donationService.ts):
  the address format test per currency symbol and the choice of a receiving
  address. The table of receiving addresses lives in a configuration file
  that is not part of this model; it is a parameter here.
 */
module Donation {
  import opened Common
  import opened Text

  // ------------------------------------------------------------ character classes

  predicate InRange(c: char, lo: char, hi: char) { lo <= c <= hi }

  /** `[a-km-zA-HJ-NP-Z1-9]`: base58, without `0`, `I`, `O` and `l`. */
  predicate Base58(c: char) {
    InRange(c, 'a', 'k') || InRange(c, 'm', 'z') || InRange(c, 'A', 'H') || InRange(c, 'J', 'N')
    || InRange(c, 'P', 'Z') || InRange(c, '1', '9')
  }

  /** `[ac-hj-np-z02-9]`: the bech32 data characters. */
  predicate Bech32(c: char) {
    c == 'a' || InRange(c, 'c', 'h') || InRange(c, 'j', 'n') || InRange(c, 'p', 'z') || c == '0'
    || InRange(c, '2', '9')
  }

  /** `[0-9a-z]`. */
  predicate LowerAlnum(c: char) { IsDigit(c) || IsLower(c) }

  /** `[5-9A-HJ-NP-U]`: the second character of a Dogecoin address. */
  predicate DogeSecond(c: char) {
    InRange(c, '5', '9') || InRange(c, 'A', 'H') || InRange(c, 'J', 'N') || InRange(c, 'P', 'U')
  }

  // ------------------------------------------------------------ address patterns

  /** `^[13]` then 25 to 34 base58 characters to the end, or `^bc1` then 11
      to 71 bech32 characters to the end. */
  predicate BtcAddress(a: string) {
    || (|a| >= 1 && (a[0] == '1' || a[0] == '3') && 25 <= |a| - 1 <= 34 && AllChars(a[1..], Base58))
    || (StartsWith(a, "bc1") && 11 <= |a| - 3 <= 71 && AllChars(a[3..], Bech32))
  }

  /** `^0x` then exactly 40 hexadecimal digits. */
  predicate EthAddress(a: string) {
    StartsWith(a, "0x") && |a| == 42 && AllChars(a[2..], IsHexDigit)
  }

  /** `^bnb1` then exactly 38 of `[0-9a-z]`. */
  predicate BnbAddress(a: string) {
    StartsWith(a, "bnb1") && |a| == 42 && AllChars(a[4..], LowerAlnum)
  }

  /** `D`, one of `[5-9A-HJ-NP-U]`, then exactly 32 base58 characters. */
  predicate DogeAddress(a: string) {
    |a| == 34 && a[0] == 'D' && DogeSecond(a[1]) && AllChars(a[2..], Base58)
  }

  /** The symbols with a pattern. */
  const PatternSymbols: set<string> := {"BTC", "ETH", "USDT", "BNB", "DOGE"}

  /** Names a plain object literal inherits: looking one up finds a function,
      not a pattern, and calling `test` on it throws. */
  const InheritedNames: set<string> := {
    "constructor", "hasOwnProperty", "isPrototypeOf", "propertyIsEnumerable",
    "toLocaleString", "toString", "valueOf", "__proto__",
    "__defineGetter__", "__defineSetter__", "__lookupGetter__", "__lookupSetter__"
  }

  datatype AddressCheck = Checked(valid: bool) | Threw

  /** validateCryptoAddress. */
  function ValidateCryptoAddress(address: string, symbol: string): (r: AddressCheck)
    ensures r == Threw <==> symbol in InheritedNames
    ensures symbol !in PatternSymbols && symbol !in InheritedNames ==> r == Checked(true)
    ensures symbol == "BTC" ==> (r == Checked(true) <==> BtcAddress(address))
    ensures symbol in {"ETH", "USDT"} ==> (r == Checked(true) <==> EthAddress(address))
    ensures symbol == "BNB" ==> (r == Checked(true) <==> BnbAddress(address))
    ensures symbol == "DOGE" ==> (r == Checked(true) <==> DogeAddress(address))
  {
    if symbol == "BTC" then Checked(BtcAddress(address))
    else if symbol == "ETH" || symbol == "USDT" then Checked(EthAddress(address))
    else if symbol == "BNB" then Checked(BnbAddress(address))
    else if symbol == "DOGE" then Checked(DogeAddress(address))
    else if symbol in InheritedNames then Threw
    else Checked(true)
  }

  // ------------------------------------------------------------ receiving addresses

  /** One configured currency: its default address and, optionally,
      addresses per network. */
  datatype CryptoEntry = CryptoEntry(address: string, networks: Option<map<string, string>>)

  /** getCryptoAddressForNetwork: nothing for an unknown symbol; the
      network's address when one is asked for and configured (non-empty);
      the default address otherwise. */
  function AddressForNetwork(book: map<string, CryptoEntry>, symbol: string, network: Option<string>): (r: Option<string>)
    ensures r.None? <==> symbol !in book
    ensures r.Some? ==>
      r.value == book[symbol].address
      || (Truthy(network) && book[symbol].networks.Some? && network.value in book[symbol].networks.value
          && r.value == book[symbol].networks.value[network.value] && r.value != "")
    ensures !Truthy(network) && symbol in book ==> r == Some(book[symbol].address)
  {
    if symbol !in book then None
    else
      var entry := book[symbol];
      if Truthy(network) && entry.networks.Some? && network.value in entry.networks.value
         && entry.networks.value[network.value] != ""
      then Some(entry.networks.value[network.value])
      else Some(entry.address)
  }

  // ------------------------------------------------------------ properties

  /** ETH and USDT share one pattern. */
  lemma EthAndUsdtAgree(address: string)
    ensures ValidateCryptoAddress(address, "ETH") == ValidateCryptoAddress(address, "USDT")
  {
  }

  /** Any 40 hexadecimal digits after `0x` make an ETH address. */
  lemma {:induction false} EthFromDigits(digits: string)
    requires |digits| == 40 && AllChars(digits, IsHexDigit)
    ensures ValidateCryptoAddress("0x" + digits, "ETH") == Checked(true)
  {
    var a := "0x" + digits;
    assert a[..2] == "0x";
    assert a[2..] == digits;
  }

  /** No string is both an ETH and a BTC address: they cannot start alike. */
  lemma {:induction false} EthIsNotBtc(a: string)
    ensures !(EthAddress(a) && BtcAddress(a))
  {
    if EthAddress(a) {
      assert a[0] == '0' && a[1] == 'x';
    }
  }

  /** No string is both a Dogecoin and a BTC address. */
  lemma {:induction false} DogeIsNotBtc(a: string)
    ensures !(DogeAddress(a) && BtcAddress(a))
  {
  }

  /** The address lengths each pattern admits. */
  lemma {:induction false} AddressLengths(a: string)
    ensures EthAddress(a) || BnbAddress(a) ==> |a| == 42
    ensures DogeAddress(a) ==> |a| == 34
    ensures BtcAddress(a) ==> 14 <= |a| <= 74
  {
  }

  /** Without a network, or with one the entry does not configure, the
      default address is used; a configured network address wins. */
  lemma {:induction false} NetworkAddressWins(book: map<string, CryptoEntry>, symbol: string, network: string, nets: map<string, string>)
    requires symbol in book && book[symbol].networks == Some(nets)
    requires network in nets && nets[network] != "" && network != ""
    ensures AddressForNetwork(book, symbol, Some(network)) == Some(nets[network])
    ensures AddressForNetwork(book, symbol, None) == Some(book[symbol].address)
  {
  }
}
