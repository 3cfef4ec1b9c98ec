/** The DeadManSwitch contract: the owner holds funds and must prove
    liveness every `Window` blocks; once the owner has been silent for a full
    window, anyone can release the whole balance to the nominee. Block
    numbers are passed in as `now`. */
module DeadManSwitch {
  import opened Common

  /** Blocks of silence after which the switch may fire. */
  const Window: nat := 10

  /** `held` is the ether balance of the contract itself. */
  datatype Switch = Switch(owner: Address, nominee: Address, lastAliveBlock: int, held: nat)

  /** Ether balances of the other accounts; absent means zero. */
  type Balances = map<Address, nat>

  /** The contract together with the balances it can pay into. */
  datatype World = World(sw: Switch, balances: Balances)

  function BalanceOf(b: Balances, a: Address): nat {
    if a in b then b[a] else 0
  }

  /** The one place the window is compared: the switch may fire at block
      `now` iff at least `Window` blocks have passed since the last proof of
      liveness. */
  predicate WindowElapsed(lastAlive: int, now: int) {
    now - lastAlive >= Window
  }

  /** Deployment by `deployer` in block `block`: the deployer owns the
      contract, and deployment counts as the first proof of liveness. */
  function Deploy(deployer: Address, nominee: Address, block: nat): (s: Switch)
    ensures s.owner == deployer && s.nominee == nominee
    ensures s.lastAliveBlock == block && s.held == 0
  {
    Switch(deployer, nominee, block, 0)
  }

  function GetOwnerAdd(s: Switch): Address {
    s.owner
  }

  /** Plain ether sent to the contract is added to what it holds. */
  function Receive(s: Switch, amount: nat): (s': Switch)
    ensures s'.held == s.held + amount
    ensures s'.owner == s.owner && s'.nominee == s.nominee && s'.lastAliveBlock == s.lastAliveBlock
  {
    s.(held := s.held + amount)
  }

  /** Records block `now` as the latest proof of liveness, nothing else. */
  function StillAlive(s: Switch, now: int): (s': Switch)
    ensures s'.lastAliveBlock == now
    ensures s'.owner == s.owner && s'.nominee == s.nominee && s'.held == s.held
    ensures !WindowElapsed(s'.lastAliveBlock, now)
  {
    s.(lastAliveBlock := now)
  }

  /** Fires the switch at block `now`: the nominee receives everything the
      contract holds, or the call reverts when the window has not elapsed. */
  function Fire(w: World, now: int): (r: Result<World>)
    ensures r.Ok? <==> WindowElapsed(w.sw.lastAliveBlock, now)
    ensures r.Err? ==> r.error == WindowNotElapsed
    ensures r.Ok? ==> r.value.sw == w.sw.(held := 0)
    ensures r.Ok? ==> BalanceOf(r.value.balances, w.sw.nominee) == BalanceOf(w.balances, w.sw.nominee) + w.sw.held
    ensures r.Ok? ==> forall a :: a != w.sw.nominee ==> BalanceOf(r.value.balances, a) == BalanceOf(w.balances, a)
  {
    if !WindowElapsed(w.sw.lastAliveBlock, now) then Err(WindowNotElapsed)
    else
      var n := w.sw.nominee;
      Ok(World(w.sw.(held := 0), w.balances[n := BalanceOf(w.balances, n) + w.sw.held]))
  }

  /** The world after the host processed a firing attempt; a revert keeps it. */
  function FireCommit(w: World, now: int): World {
    match Fire(w, now)
    case Ok(w') => w'
    case Err(_) => w
  }

  /** Firing never creates or destroys ether: what the contract held plus the
      nominee's balance is the same afterwards, whether or not it fired. */
  lemma FireConserves(w: World, now: int)
    ensures var w' := FireCommit(w, now);
      w'.sw.held + BalanceOf(w'.balances, w.sw.nominee) == w.sw.held + BalanceOf(w.balances, w.sw.nominee)
  {
  }

  /** A proof of liveness in block `now` blocks the switch for exactly the
      next `Window - 1` blocks and no longer. */
  lemma RefreshBlocksWindow(s: Switch, b: Balances, now: int, later: int)
    requires now <= later
    ensures Fire(World(StillAlive(s, now), b), later).Ok? <==> later >= now + Window
  {
  }

  /** Once the switch can fire, it can fire at every later block too, until
      the owner proves liveness again. */
  lemma ElapsedStaysElapsed(lastAlive: int, now: int, later: int)
    requires WindowElapsed(lastAlive, now) && now <= later
    ensures WindowElapsed(lastAlive, later)
  {
  }

  /** A second firing moves nothing: the contract is empty and every balance
      stays as the first firing left it. */
  lemma FireTwice(w: World, now: int, later: int)
    requires Fire(w, now).Ok? && now <= later
    ensures var w1 := Fire(w, now).value;
      Fire(w1, later).Ok? && forall a :: BalanceOf(Fire(w1, later).value.balances, a) == BalanceOf(w1.balances, a)
  {
  }

  /** Deployment in block `d`: the deployer is the owner, the given address
      is the nominee, `d` is the last-alive block, and the owner read gives
      back the deployer. */
  lemma DeploymentScenario(owner: Address, nominee: Address, d: nat)
    ensures GetOwnerAdd(Deploy(owner, nominee, d)) == owner
    ensures Deploy(owner, nominee, d).nominee == nominee
    ensures Deploy(owner, nominee, d).lastAliveBlock == d
  {
  }

  /** Deployed in block d, funded in block d+1, nine blocks mined, fired in
      block d+11: the nominee gains exactly the funded amount. */
  lemma SilentOwnerScenario(owner: Address, nominee: Address, d: nat, amount: nat, b: Balances)
    ensures var sw := Receive(Deploy(owner, nominee, d), amount);
      && Fire(World(sw, b), d + 11).Ok?
      && BalanceOf(Fire(World(sw, b), d + 11).value.balances, nominee) == BalanceOf(b, nominee) + amount
      && Fire(World(sw, b), d + 11).value.sw.held == 0
  {
  }

  /** Deployed in block d, nine blocks mined, liveness proved in block d+10,
      fired in block d+11: the call reverts and the nominee gains nothing. */
  lemma LiveOwnerScenario(owner: Address, nominee: Address, d: nat, b: Balances)
    ensures var w := World(StillAlive(Deploy(owner, nominee, d), d + 10), b);
      && Fire(w, d + 11) == Err(WindowNotElapsed)
      && BalanceOf(FireCommit(w, d + 11).balances, nominee) == BalanceOf(b, nominee)
  {
  }
}
