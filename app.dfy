/**
 * The top-level gate (client/src/App.tsx): age confirmation first, then the
 * wallet's token-balance access, then the feed. `App` calls `useWallet()`
 * itself, and so does the `WalletConnect` screen it renders
 * (client/src/components/WalletConnect.tsx): each call owns its own state.
 */
module App {
  import opened Common
  import opened Browser
  import opened Wallet

  /** The component `App` renders. */
  datatype Screen = AgeGate | WalletGate | FeedScreen

  /** The three-way choice: age first, then access. */
  function Gate(ageVerified: bool, hasAccess: bool): (s: Screen)
    ensures s == AgeGate <==> !ageVerified
    ensures s == WalletGate <==> ageVerified && !hasAccess
    ensures s == FeedScreen <==> ageVerified && hasAccess
  {
    if !ageVerified then AgeGate
    else if !hasAccess then WalletGate
    else FeedScreen
  }

  /** `WalletConnect` renders nothing once its own wallet has access and a truthy address. */
  predicate WalletConnectRendersNothing(hasAccess: bool, address: Option<string>)
  {
    hasAccess && Truthy(address)
  }

  class AppState {
    var ageVerified: bool
    /** The `useWallet()` instance of `App` itself. */
    const wallet: WalletHook

    ghost predicate Valid()
      reads this, wallet
    {
      wallet.Valid()
    }

    constructor (balanceEnv: NumberValue, chainEnv: Option<string>)
      ensures Valid() && fresh(wallet) && !ageVerified
      ensures !wallet.hasAccess && wallet.address == None
      ensures wallet.required == RequiredBalance(balanceEnv) && wallet.chainId == ChainIdParam(chainEnv)
    {
      ageVerified := false;
      wallet := new WalletHook(balanceEnv, chainEnv);
    }

    function Screen(): Screen
      reads this, wallet
    {
      Gate(ageVerified, wallet.hasAccess)
    }

    /** The mount effect: only the exact stored string `'true'` confirms the age. */
    method MountEffect(storage: LocalStorage)
      modifies this
      ensures storage.GetItem("age_verified") == Some("true") ==> ageVerified
      ensures storage.GetItem("age_verified") != Some("true") ==> ageVerified == old(ageVerified)
    {
      var verified := storage.GetItem("age_verified");
      if verified == Some("true") {
        ageVerified := true;
      }
    }

    /** The `onVerify` callback passed to the age screen. */
    method OnVerify()
      modifies this
      ensures ageVerified && Screen() != AgeGate
    {
      ageVerified := true;
    }
  }

  /** The feed is on screen only for a confirmed age and a balance at or above the threshold. */
  lemma FeedNeedsAgeAndBalance(app: AppState)
    requires app.Valid()
    ensures app.Screen() == FeedScreen ==> app.ageVerified && app.wallet.balance >= app.wallet.required
    ensures !app.ageVerified ==> app.Screen() == AgeGate
  {
  }

  // ---------------------------------------------------------------------
  // The two wallet instances

  /** The page as written: `App` and `WalletConnect` each hold their own wallet state. */
  class SeparatePage {
    const app: AppState
    /** The `useWallet()` instance of `WalletConnect`. */
    const gateWallet: WalletHook

    ghost predicate Valid()
      reads this, app, app.wallet, gateWallet
    {
      app.Valid() && gateWallet.Valid() && gateWallet != app.wallet
    }

    constructor (balanceEnv: NumberValue, chainEnv: Option<string>)
      ensures Valid() && fresh(app) && fresh(app.wallet) && fresh(gateWallet)
      ensures !app.ageVerified && !app.wallet.hasAccess && !gateWallet.hasAccess
      ensures gateWallet.required == RequiredBalance(balanceEnv)
    {
      app := new AppState(balanceEnv, chainEnv);
      gateWallet := new WalletHook(balanceEnv, chainEnv);
    }

    /**
     * The "Connect Wallet" button of the wallet screen: it runs the
     * `connectWallet` of `WalletConnect`'s instance; `App`'s instance, and
     * with it the screen `App` picks, stays as it was.
     */
    method ConnectFromGate(injected: Option<Provider>)
      requires Valid()
      modifies gateWallet
      ensures Valid() && app.Screen() == old(app.Screen())
      ensures app.wallet.hasAccess == old(app.wallet.hasAccess)
      ensures (injected.Some? && injected.value.requestAccounts.Accounts?
        && SwitchToChain(injected.value, gateWallet.chainId).1.Done?
        && FirstAccount(injected.value.requestAccounts.list).Some? && injected.value.balanceOf.Some?) ==>
        gateWallet.hasAccess == (injected.value.balanceOf.value >= gateWallet.required)
        && gateWallet.address == FirstAccount(injected.value.requestAccounts.list)
    {
      gateWallet.ConnectWallet(injected);
    }
  }

  /**
   * A holder with enough tokens who confirms the age and connects from the
   * wallet screen ends on the wallet screen while that screen renders nothing.
   */
  method SeparateInstancesLeaveBlankScreen() returns (page: SeparatePage)
    ensures page.Valid()
    ensures page.app.Screen() == WalletGate
    ensures WalletConnectRendersNothing(page.gateWallet.hasAccess, page.gateWallet.address)
  {
    page := new SeparatePage(Num(100.0), Some("8453"));
    page.app.OnVerify();
    var holder := Provider(Accounts(["0xa1"]), [], Done, Done, Some(250.0));
    page.ConnectFromGate(Some(holder));
  }

  /** The page with one wallet state shared by `App` and the wallet screen. */
  class SharedPage {
    const app: AppState

    ghost predicate Valid()
      reads this, app, app.wallet
    {
      app.Valid()
    }

    constructor (balanceEnv: NumberValue, chainEnv: Option<string>)
      ensures Valid() && fresh(app) && fresh(app.wallet)
      ensures !app.ageVerified && !app.wallet.hasAccess
      ensures app.wallet.required == RequiredBalance(balanceEnv)
    {
      app := new AppState(balanceEnv, chainEnv);
    }

    /** Connecting from the wallet screen updates the state `App` reads. */
    method ConnectFromGate(injected: Option<Provider>)
      requires Valid()
      modifies app.wallet
      ensures Valid() && app.ageVerified == old(app.ageVerified)
      ensures (injected.Some? && injected.value.requestAccounts.Accounts?
        && SwitchToChain(injected.value, app.wallet.chainId).1.Done?
        && FirstAccount(injected.value.requestAccounts.list).Some? && injected.value.balanceOf.Some?) ==>
        app.Screen() == Gate(app.ageVerified, injected.value.balanceOf.value >= app.wallet.required)
    {
      app.wallet.ConnectWallet(injected);
    }
  }

  /** With a shared wallet state, the same holder reaches the feed. */
  method SharedInstanceReachesFeed() returns (page: SharedPage)
    ensures page.Valid() && page.app.Screen() == FeedScreen
  {
    page := new SharedPage(Num(100.0), Some("8453"));
    page.app.OnVerify();
    var holder := Provider(Accounts(["0xa1"]), [], Done, Done, Some(250.0));
    page.ConnectFromGate(Some(holder));
  }
}
