/**
 * The wallet hook (client/src/hooks/useWallet.ts): connects an injected
 * wallet, switches it to the configured chain (EIP-3326
 * `wallet_switchEthereumChain`, falling back to EIP-3085
 * `wallet_addEthereumChain`), reads the holder's ERC-20 token balance and
 * grants access when it reaches the required amount.
 *
 * The injected provider and the chain are oracles: a `Provider` value says
 * what each request answers. The balance is the already normalised amount
 * (`balanceOf` scaled by `decimals`), taken as an exact real.
 */
module Wallet {
  import opened Common
  import opened Text

  // ---------------------------------------------------------------------
  // Configuration

  /** `Number(VITE_REQUIRED_BALANCE)`: NaN when the variable is missing or not numeric. */
  datatype NumberValue = NaN | Num(value: real)

  const DefaultRequiredBalance: real := 10000.0

  /** `Number(env) || 10000`: NaN and zero are falsy. */
  function RequiredBalance(env: NumberValue): (r: real)
    ensures r != 0.0
    ensures env.Num? && env.value != 0.0 ==> r == env.value
    ensures env.NaN? || env == Num(0.0) ==> r == DefaultRequiredBalance
  {
    if env.Num? && env.value != 0.0 then env.value else DefaultRequiredBalance
  }

  const DefaultChainId: string := "7777777"

  /** `VITE_ZORA_CHAIN_ID || '7777777'`. */
  function ChainIdSetting(env: Option<string>): string
  {
    if Truthy(env) then env.value else DefaultChainId
  }

  /** The result of `parseInt`. */
  datatype IntResult = NotANumber | Int(value: int)

  predicate IsSpace(c: char)
  {
    c == ' ' || c == '\t' || c == '\n' || c == '\r' || c as int == 11 || c as int == 12
  }

  /** `s` without its leading white space. */
  function TrimStart(s: string): string
  {
    if s != [] && IsSpace(s[0]) then TrimStart(s[1..]) else s
  }

  predicate IsRadixDigit(c: char, hex: bool)
  {
    if hex then IsHexDigit(c) else IsDigit(c)
  }

  /** The longest prefix of `s` made of digits of the radix. */
  function DigitPrefix(s: string, hex: bool): (r: string)
    ensures forall k :: 0 <= k < |r| ==> IsRadixDigit(r[k], hex)
    ensures r <= s
    ensures |r| < |s| ==> !IsRadixDigit(s[|r|], hex)
  {
    if s == [] || !IsRadixDigit(s[0], hex) then [] else [s[0]] + DigitPrefix(s[1..], hex)
  }

  /**
   * `parseInt(s)` with no radix: leading white space, an optional sign, a
   * `0x`/`0X` prefix switching to hexadecimal, then the longest run of digits.
   */
  function ParseInt(s: string): IntResult
  {
    ParseSigned(TrimStart(s))
  }

  /** Trimming drops a prefix of white space: what is left is a suffix that does not start with any. */
  lemma {:induction false} TrimStartSuffix(s: string)
    ensures var r := TrimStart(s);
      |r| <= |s| && r == s[|s| - |r|..] && (r != [] ==> !IsSpace(r[0]))
    decreases |s|
  {
    if s != [] && IsSpace(s[0]) {
      TrimStartSuffix(s[1..]);
    }
  }

  /** `parseInt` answers a number only for text holding a digit; text without one is `NaN`. */
  lemma ParseIntNeedsDigit(s: string)
    ensures ParseInt(s).Int? ==> exists k :: 0 <= k < |s| && IsDigit(s[k])
  {
    var t := TrimStart(s);
    TrimStartSuffix(s);
    if ParseInt(s).Int? {
      var off := if t != [] && (t[0] == '-' || t[0] == '+') then 1 else 0;
      assert IsDigit(t[off]);
      assert s[|s| - |t| + off] == t[off];
    }
  }

  /** The sign, then the unsigned part. */
  function ParseSigned(t: string): IntResult
  {
    var neg := t != [] && t[0] == '-';
    var u := if t != [] && (t[0] == '-' || t[0] == '+') then t[1..] else t;
    match ParseUnsigned(u)
    case NotANumber => NotANumber
    case Int(v) => Int(if neg then -v else v)
  }

  /** An optional `0x`/`0X` prefix, then the longest run of digits of the radix. */
  function ParseUnsigned(u: string): IntResult
  {
    var hex := |u| >= 2 && u[0] == '0' && (u[1] == 'x' || u[1] == 'X');
    var digits := DigitPrefix(if hex then u[2..] else u, hex);
    if digits == [] then NotANumber
    else Int(if hex then HexValue(digits) else DecimalValue(digits))
  }

  /** `toString(16)` of the parsed number. */
  function HexString(v: IntResult): string
  {
    match v
    case NotANumber => "NaN"
    case Int(n) => if n < 0 then "-" + Hex(-n) else Hex(n)
  }

  /** The `chainId` parameter of both chain requests. */
  function ChainIdParam(env: Option<string>): (r: string)
    ensures |r| > 2 && r[..2] == "0x"
  {
    "0x" + HexString(ParseInt(ChainIdSetting(env)))
  }

  lemma {:induction false} AllDigitsPrefix(s: string)
    requires forall k :: 0 <= k < |s| ==> IsDigit(s[k])
    ensures DigitPrefix(s, false) == s
    decreases |s|
  {
    if s != [] {
      AllDigitsPrefix(s[1..]);
    }
  }

  /** `parseInt` of a non-empty run of decimal digits is its decimal value. */
  lemma ParseDigits(d: string)
    requires d != [] && forall k :: 0 <= k < |d| ==> IsDigit(d[k])
    ensures ParseInt(d) == Int(DecimalValue(d))
  {
    assert TrimStart(d) == d;
    assert !(|d| >= 2 && d[0] == '0' && (d[1] == 'x' || d[1] == 'X')) by {
      if |d| >= 2 {
        assert IsDigit(d[1]);
      }
    }
    AllDigitsPrefix(d);
    assert ParseUnsigned(d) == Int(DecimalValue(d));
    assert !(d[0] == '-' || d[0] == '+');
  }

  /** `parseInt` reads back a decimal rendering. */
  lemma ParseDecimal(n: nat)
    ensures ParseInt(Decimal(n)) == Int(n)
  {
    ParseDigits(Decimal(n));
    DecimalRoundTrip(n);
  }

  /**
   * A chain id configured as the decimal rendering of `n` is sent as `"0x"`
   * and the lower-case hexadecimal digits of `n`, which read back as `n`.
   */
  lemma ChainIdEncoding(env: Option<string>, n: nat)
    requires ChainIdSetting(env) == Decimal(n)
    ensures ChainIdParam(env) == "0x" + Hex(n)
    ensures HexValue(ChainIdParam(env)[2..]) == n
  {
    ParseDecimal(n);
    HexRoundTrip(n);
    assert ("0x" + Hex(n))[2..] == Hex(n);
  }

  lemma DecimalOfDefault()
    ensures Decimal(7777777) == DefaultChainId
  {
    assert Decimal(7) == "7";
    assert Decimal(77) == "77";
    assert Decimal(777) == "777";
    assert Decimal(7777) == "7777";
    assert Decimal(77777) == "77777";
    assert Decimal(777777) == "777777";
  }

  lemma HexOfDefault()
    ensures "0x" + Hex(7777777) == "0x76adf1"
  {
    assert Hex(7) == "7";
    assert Hex(118) == "76";
    assert Hex(1898) == "76a";
    assert Hex(30381) == "76ad";
    assert Hex(486111) == "76adf";
    assert Hex(7777777) == "76adf1";
  }

  lemma DefaultSettingIsDecimal(env: Option<string>)
    requires !Truthy(env)
    ensures ChainIdSetting(env) == Decimal(7777777)
  {
    DecimalOfDefault();
  }

  /** Without configuration (unset or empty) the chain id 7777777 is sent as `0x76adf1`. */
  lemma DefaultChainIdParam(env: Option<string>)
    requires !Truthy(env)
    ensures ChainIdParam(env) == "0x76adf1"
  {
    DefaultSettingIsDecimal(env);
    ChainIdEncoding(env, 7777777);
    HexOfDefault();
  }

  // ---------------------------------------------------------------------
  // The provider

  datatype RpcError = RpcError(code: int, message: string)

  /** The answer to a request that returns nothing of interest. */
  datatype Reply = Done | Failed(err: RpcError)

  datatype AccountsReply = Accounts(list: seq<string>) | Rejected(err: RpcError)

  /** What the injected provider and the token contract answer. */
  datatype Provider = Provider(
    requestAccounts: AccountsReply,  // eth_requestAccounts
    existingAccounts: seq<string>,   // eth_accounts, on mount
    switchChain: Reply,              // wallet_switchEthereumChain
    addChain: Reply,                 // wallet_addEthereumChain
    balanceOf: Option<real>)         // decimals() then balanceOf(), normalised; None when either throws

  /** The chain requests the hook sends. The chain added is described as `Base`. */
  datatype ChainRequest =
    | SwitchChain(chainId: string)
    | AddChain(chainId: string, chainName: string, rpcUrl: string, explorerUrl: string)

  /** The error code of EIP-3326 for a chain the wallet does not know. */
  const UnrecognizedChain: int := 4902

  /**
   * `switchToZora`: the requests sent and what the call ends with. Only the
   * unknown-chain error leads to adding the chain; any other error is rethrown.
   */
  function SwitchToChain(p: Provider, chainId: string): (r: (seq<ChainRequest>, Reply))
    ensures |r.0| >= 1 && r.0[0] == SwitchChain(chainId)
    ensures |r.0| == 2 <==> p.switchChain.Failed? && p.switchChain.err.code == UnrecognizedChain
    ensures |r.0| == 2 ==> r.0[1].AddChain? && r.0[1].chainId == chainId
    ensures r.1.Done? <==>
      p.switchChain.Done? || (p.switchChain.err.code == UnrecognizedChain && p.addChain.Done?)
    ensures p.switchChain.Failed? && p.switchChain.err.code != UnrecognizedChain ==> r.1 == p.switchChain
    ensures p.switchChain.Failed? && p.switchChain.err.code == UnrecognizedChain ==> r.1 == p.addChain
  {
    if p.switchChain.Done? then ([SwitchChain(chainId)], Done)
    else if p.switchChain.err.code == UnrecognizedChain then
      ([SwitchChain(chainId), AddChain(chainId, "Base", "https://mainnet.base.org", "https://basescan.org")],
       p.addChain)
    else ([SwitchChain(chainId)], p.switchChain)
  }

  const InstallWalletMessage: string := "Please install MetaMask or Coinbase Wallet"
  const BalanceErrorMessage: string := "Failed to check token balance"
  const ConnectErrorMessage: string := "Failed to connect wallet"

  /** `err.message || 'Failed to connect wallet'`. */
  function ErrorText(e: RpcError): (r: string)
    ensures r != ""
    ensures e.message != "" ==> r == e.message
  {
    if e.message != "" then e.message else ConnectErrorMessage
  }

  /** `accounts[0]`: undefined when the list is empty. */
  function FirstAccount(accounts: seq<string>): Option<string>
  {
    if accounts == [] then None else Some(accounts[0])
  }

  // ---------------------------------------------------------------------
  // The hook's state

  class WalletHook {
    const required: real
    const chainId: string
    var address: Option<string>
    var balance: real
    var hasAccess: bool
    var isConnecting: bool
    var error: Option<string>
    /** The chain requests sent so far. */
    var chainRequests: seq<ChainRequest>

    /** Access is only ever granted by a balance read that reached the threshold. */
    ghost predicate Valid()
      reads this
    {
      hasAccess ==> balance >= required
    }

    constructor (balanceEnv: NumberValue, chainEnv: Option<string>)
      ensures Valid()
      ensures required == RequiredBalance(balanceEnv) && chainId == ChainIdParam(chainEnv)
      ensures address == None && balance == 0.0 && !hasAccess && !isConnecting && error == None
      ensures chainRequests == []
    {
      required := RequiredBalance(balanceEnv);
      chainId := ChainIdParam(chainEnv);
      address := None;
      balance := 0.0;
      hasAccess := false;
      isConnecting := false;
      error := None;
      chainRequests := [];
    }

    /**
     * `checkBalance`: on a successful read, records the balance and grants
     * access exactly when it reaches the threshold; on a failed read, only
     * sets the error and answers 0.
     */
    method CheckBalance(p: Provider, userAddress: Option<string>) returns (r: real)
      requires Valid()
      modifies this`balance, this`hasAccess, this`error
      ensures Valid()
      ensures userAddress.Some? && p.balanceOf.Some? ==>
        r == balance == p.balanceOf.value && hasAccess == (balance >= required) && error == old(error)
      ensures !(userAddress.Some? && p.balanceOf.Some?) ==>
        r == 0.0 && balance == old(balance) && hasAccess == old(hasAccess)
        && error == Some(BalanceErrorMessage)
    {
      if userAddress.Some? && p.balanceOf.Some? {
        var formatted := p.balanceOf.value;
        balance := formatted;
        hasAccess := formatted >= required;
        r := formatted;
      } else {
        error := Some(BalanceErrorMessage);
        r := 0.0;
      }
    }

    /** The synchronous start of `connectWallet`. */
    method BeginConnect()
      requires Valid()
      modifies this`isConnecting, this`error
      ensures Valid() && isConnecting && error == None
    {
      isConnecting := true;
      error := None;
    }

    /** The asynchronous rest of `connectWallet`, up to and including `finally`. */
    method CompleteConnect(injected: Option<Provider>)
      requires Valid()
      modifies this
      ensures Valid() && !isConnecting
      // no wallet: the install message, nothing else changes
      ensures injected.None? ==>
        error == Some(InstallWalletMessage) && address == old(address)
        && balance == old(balance) && hasAccess == old(hasAccess) && chainRequests == old(chainRequests)
      // the user refuses the account request
      ensures injected.Some? && injected.value.requestAccounts.Rejected? ==>
        error == Some(ErrorText(injected.value.requestAccounts.err)) && address == old(address)
        && balance == old(balance) && hasAccess == old(hasAccess) && chainRequests == old(chainRequests)
      // the address is recorded before the network switch
      ensures injected.Some? && injected.value.requestAccounts.Accounts? ==>
        address == FirstAccount(injected.value.requestAccounts.list)
        && chainRequests == old(chainRequests) + SwitchToChain(injected.value, chainId).0
      // a failed switch aborts the balance check
      ensures (injected.Some? && injected.value.requestAccounts.Accounts?
        && SwitchToChain(injected.value, chainId).1.Failed?) ==>
        error == Some(ErrorText(SwitchToChain(injected.value, chainId).1.err))
        && balance == old(balance) && hasAccess == old(hasAccess)
      // after a successful switch, the balance decides access
      ensures (injected.Some? && injected.value.requestAccounts.Accounts?
        && SwitchToChain(injected.value, chainId).1.Done?) ==>
        if address.Some? && injected.value.balanceOf.Some? then
          balance == injected.value.balanceOf.value && hasAccess == (balance >= required)
          && error == old(error)
        else
          balance == old(balance) && hasAccess == old(hasAccess) && error == Some(BalanceErrorMessage)
    {
      if injected.None? {
        error := Some(InstallWalletMessage);
      } else {
        var p := injected.value;
        match p.requestAccounts
        case Rejected(e) =>
          error := Some(ErrorText(e));
        case Accounts(list) =>
          var userAddress := FirstAccount(list);
          address := userAddress;
          var (sent, outcome) := SwitchToChain(p, chainId);
          chainRequests := chainRequests + sent;
          if outcome.Failed? {
            error := Some(ErrorText(outcome.err));
          } else {
            var _ := CheckBalance(p, userAddress);
          }
      }
      isConnecting := false;
    }

    /** `connectWallet`: clears the error, shows the spinner, and ends with it off on every path. */
    method ConnectWallet(injected: Option<Provider>)
      requires Valid()
      modifies this
      ensures Valid() && !isConnecting
      ensures injected.None? ==> error == Some(InstallWalletMessage) && address == old(address)
      ensures injected.Some? && injected.value.requestAccounts.Accounts? ==>
        address == FirstAccount(injected.value.requestAccounts.list)
      ensures (injected.Some? && injected.value.requestAccounts.Accounts?
        && SwitchToChain(injected.value, chainId).1.Done?
        && FirstAccount(injected.value.requestAccounts.list).Some? && injected.value.balanceOf.Some?) ==>
        balance == injected.value.balanceOf.value && hasAccess == (balance >= required) && error == None
    {
      BeginConnect();
      CompleteConnect(injected);
    }

    /** `disconnectWallet`: forgets the address and the access; the error stays. */
    method DisconnectWallet()
      requires Valid()
      modifies this`address, this`balance, this`hasAccess
      ensures Valid()
      ensures address == None && balance == 0.0 && !hasAccess
    {
      address := None;
      balance := 0.0;
      hasAccess := false;
    }

    /** The mount check: a wallet that already exposes an account is re-checked. */
    method MountCheck(injected: Option<Provider>)
      requires Valid()
      modifies this`address, this`balance, this`hasAccess, this`error
      ensures Valid()
      ensures injected.None? || injected.value.existingAccounts == [] ==>
        address == old(address) && balance == old(balance) && hasAccess == old(hasAccess) && error == old(error)
      ensures injected.Some? && injected.value.existingAccounts != [] ==>
        address == Some(injected.value.existingAccounts[0])
        && (injected.value.balanceOf.Some? ==>
              balance == injected.value.balanceOf.value && hasAccess == (balance >= required)
              && error == old(error))
        && (injected.value.balanceOf.None? ==>
              balance == old(balance) && hasAccess == old(hasAccess) && error == Some(BalanceErrorMessage))
    {
      if injected.Some? && injected.value.existingAccounts != [] {
        var account := injected.value.existingAccounts[0];
        address := Some(account);
        var _ := CheckBalance(injected.value, Some(account));
      }
    }
  }
}
