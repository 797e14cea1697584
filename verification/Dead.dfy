/** The dead-address precompile: value sent to a dead address is split once between burning in place and
    the treasury, with a per-address mark of what has already been through the split. */
module Dead {
  import opened Bytes
  import opened Rounding
  import opened Sums
  import opened Wrappers

  const BASIS_POINTS: nat := 10_000
  const DEFAULT_BURN_BPS: nat := 5_000
  const ZERO_ADDRESS: Address := Zeros(20)
  const DEAD_ADDRESS: Address := Zeros(18) + [0xde, 0xad]
  const DEAD_FULL_ADDRESS: Address := [0xde, 0xad] + Zeros(18)
  const DEFAULT_TREASURY: Address :=
    [0x90, 0x11, 0xe8, 0x88, 0x25, 0x1a, 0xb0, 0x53, 0xb7, 0xbd, 0x1c, 0xdb, 0x59, 0x8d, 0xb4, 0xf9, 0xde,
     0xd9, 0x47, 0x14]

  predicate IsDead(a: Address) {
    a in {ZERO_ADDRESS, DEAD_ADDRESS, DEAD_FULL_ADDRESS}
  }

  /** The three dead addresses: zero, 0x...dead, and 0xdead.... */
  lemma DeadAddressesAre(a: Address)
    ensures IsDead(a) <==>
            || (forall i :: 0 <= i < 20 ==> a[i] == 0)
            || (a[18] == 0xde && a[19] == 0xad && forall i :: 0 <= i < 18 ==> a[i] == 0)
            || (a[0] == 0xde && a[1] == 0xad && forall i :: 2 <= i < 20 ==> a[i] == 0)
  {
    if forall i :: 0 <= i < 20 ==> a[i] == 0 {
      assert a == ZERO_ADDRESS;
    }
    if a[18] == 0xde && a[19] == 0xad && forall i :: 0 <= i < 18 ==> a[i] == 0 {
      assert a == DEAD_ADDRESS;
    }
    if a[0] == 0xde && a[1] == 0xad && forall i :: 2 <= i < 20 ==> a[i] == 0 {
      assert a == DEAD_FULL_ADDRESS;
    }
  }

  /** None is an unset slot, which reads as its default; a zero admin or treasury is unset. */
  datatype Config = Config(admin: Address, treasury: Address, burnBPS: Option<nat>, enabled: Option<bool>)

  function Treasury(c: Config): Address {
    if c.treasury == ZERO_ADDRESS then DEFAULT_TREASURY else c.treasury
  }

  function BurnBPS(c: Config): nat {
    if c.burnBPS.None? then DEFAULT_BURN_BPS else c.burnBPS.value
  }

  function Enabled(c: Config): bool {
    c.enabled.None? || c.enabled.value
  }

  datatype DeadError = Unauthorized | InvalidRatio | InvalidAddress | Disabled | InvalidInput

  // ----- the split -----

  /** The burned share; the product is a 256-bit one. */
  function Burn(value: nat, bps: nat): nat {
    value * bps % U256 / BASIS_POINTS
  }

  /** Whatever the product wraps to, the burned share never exceeds the value at a valid ratio. */
  lemma BurnWithin(value: nat, bps: nat)
    requires bps <= BASIS_POINTS
    ensures Burn(value, bps) <= value
  {
    var product := value * bps;
    MulMono(bps, BASIS_POINTS, value);
    ModAtMost(product);
    DivMono(product % U256, value * BASIS_POINTS, BASIS_POINTS);
    ExactQuotient(value);
  }

  lemma ModAtMost(n: nat)
    ensures n % U256 <= n
  {
  }

  lemma ExactQuotient(value: nat)
    ensures value * BASIS_POINTS / BASIS_POINTS == value
  {
  }

  /** Burned and treasury shares together are the value. */
  method CalculateSplitUint256(value: nat, bps: nat) returns (burn: nat, treasury: nat)
    requires bps <= BASIS_POINTS
    ensures burn == Burn(value, bps) && burn + treasury == value
  {
    BurnWithin(value, bps);
    if value == 0 { return 0, 0; }
    burn := value * bps % U256;
    burn := burn / BASIS_POINTS;
    treasury := value - burn;
  }

  lemma WrapLoses(n: nat)
    requires n >= U256
    ensures n % U256 + U256 <= n
  {
  }

  lemma LessByStep(r: nat, n: nat, d: nat)
    requires d > 0 && r + d <= n
    ensures r / d < n / d
  {
    var q := r / d;
    assert r == q * d + r % d;
    assert (q + 1) * d == q * d + d;
    FloorAtLeast(n, d, q + 1);
  }

  /** The share is the stated fraction, rounded down, exactly when the product does not wrap. */
  lemma BurnIsFractionIff(value: nat, bps: nat)
    ensures Burn(value, bps) == value * bps / BASIS_POINTS <==> value * bps < U256
  {
    var n := value * bps;
    if n < U256 {
      SmallMod(n, U256);
    } else {
      WrapLoses(n);
      LessByStep(n % U256, n, BASIS_POINTS);
    }
  }

  function Sum(vs: seq<nat>): nat {
    if vs == [] then 0 else Sum(vs[..|vs| - 1]) + vs[|vs| - 1]
  }

  function SumBurn(vs: seq<nat>, bps: nat): nat {
    if vs == [] then 0 else SumBurn(vs[..|vs| - 1], bps) + Burn(vs[|vs| - 1], bps)
  }

  lemma FloorsAdd(a: nat, b: nat, d: nat)
    requires d > 0
    ensures a / d + b / d <= (a + b) / d <= a / d + b / d + 1
  {
    var q := a / d + b / d;
    assert a == a / d * d + a % d && b == b / d * d + b % d;
    assert a + b == q * d + (a % d + b % d);
    FloorAtLeast(a + b, d, q);
    FloorAtLeast(a + b, d, q + 2);
    assert (q + 2) * d == q * d + 2 * d;
  }

  lemma BurnsAdd(a: nat, b: nat, bps: nat)
    requires (a + b) * bps < U256
    ensures Burn(a, bps) + Burn(b, bps) <= Burn(a + b, bps) <= Burn(a, bps) + Burn(b, bps) + 1
  {
    assert (a + b) * bps == a * bps + b * bps;
    BurnIsFractionIff(a + b, bps);
    BurnIsFractionIff(a, bps);
    BurnIsFractionIff(b, bps);
    FloorsAdd(a * bps, b * bps, BASIS_POINTS);
  }

  /** Splitting a deposit in k parts at one ratio burns at most k - 1 units less than splitting it whole, and
      never more. */
  lemma {:induction false} PartsBurnAlmostAsMuch(vs: seq<nat>, bps: nat)
    requires vs != [] && Sum(vs) * bps < U256
    ensures SumBurn(vs, bps) <= Burn(Sum(vs), bps) <= SumBurn(vs, bps) + |vs| - 1
  {
    var front, last := vs[..|vs| - 1], vs[|vs| - 1];
    if front == [] {
      assert Sum(vs) == last;
    } else {
      MulMono(Sum(front), Sum(vs), bps);
      PartsBurnAlmostAsMuch(front, bps);
      BurnsAdd(Sum(front), last, bps);
    }
  }

  // ----- the state -----

  /** deposited and paid are history: what ever reached an address, and what the split ever paid out of it. */
  datatype Chain = Chain(
    balance: map<Address, nat>, burned: map<Address, nat>, config: Config,
    deposited: map<Address, nat>, paid: map<Address, nat>)

  /** Moves value; the receiving side is a deposit. */
  function Moved(s: Chain, from: Address, to: Address, amount: nat): Chain
    requires amount <= At(s.balance, from)
  {
    var b := s.balance[from := At(s.balance, from) - amount];
    s.(balance := b[to := (At(b, to) + amount) % U256], deposited := s.deposited[to := At(s.deposited, to) + amount])
  }

  /** Sends the treasury its share, if any. */
  function PaidOut(s: Chain, addr: Address, amount: nat): Chain
    requires amount <= At(s.balance, addr)
  {
    if amount == 0 then s
    else Moved(s, addr, Treasury(s.config), amount).(paid := s.paid[addr := At(s.paid, addr) + amount])
  }

  function Marked(s: Chain, addr: Address, burned: nat): Chain {
    s.(burned := s.burned[addr := burned % U256])
  }

  predicate ConfigSound(c: Config) {
    BurnBPS(c) <= BASIS_POINTS
  }

  /** Only what is not already marked burned goes through the split. */
  function Received(s: Chain, addr: Address, readOnly: bool): (Chain, Option<DeadError>)
    requires ConfigSound(s.config)
  {
    if !Enabled(s.config) then (s, Some(Disabled))
    else
      var balance, burned := At(s.balance, addr), At(s.burned, addr);
      if balance <= burned || readOnly then (s, None)
      else
        var unsplit := balance - burned;
        BurnWithin(unsplit, BurnBPS(s.config));
        var burn := Burn(unsplit, BurnBPS(s.config));
        (Marked(PaidOut(s, addr, unsplit - burn), addr, burned + burn), None)
  }

  // ----- the precompile -----

  function ParseAddress(args: seq<byte>): Address
    requires |args| >= 32
  {
    args[12..32]
  }

  function AdminRefusal(c: Config, caller: Address, args: seq<byte>, readOnly: bool): Option<DeadError> {
    if readOnly || c.admin == ZERO_ADDRESS || caller != c.admin then Some(Unauthorized)
    else if |args| < 32 then Some(InvalidInput)
    else None
  }

  datatype Setting = SetAdmin | SetTreasury | SetBurnRatio | SetEnabled

  /** An admin call: what it makes of the configuration. */
  function Configured(c: Config, setting: Setting, caller: Address, args: seq<byte>, readOnly: bool)
    : Result<Config, DeadError>
  {
    match AdminRefusal(c, caller, args, readOnly)
    case Some(e) => Err(e)
    case None =>
      match setting
      case SetAdmin =>
        if ParseAddress(args) == ZERO_ADDRESS then Err(InvalidAddress) else Ok(c.(admin := ParseAddress(args)))
      case SetTreasury =>
        if ParseAddress(args) == ZERO_ADDRESS then Err(InvalidAddress) else Ok(c.(treasury := ParseAddress(args)))
      case SetBurnRatio =>
        if FromBE(args[24..32]) > BASIS_POINTS then Err(InvalidRatio) else Ok(c.(burnBPS := Some(FromBE(args[24..32]))))
      case SetEnabled => Ok(c.(enabled := Some(args[31] != 0)))
  }

  /** Nobody but a provisioned admin changes anything, in a writable call, and then one field only; a ratio stays
      within the whole. */
  lemma OnlyTheAdminConfigures(c: Config, setting: Setting, caller: Address, args: seq<byte>, readOnly: bool)
    requires Configured(c, setting, caller, args, readOnly).Ok?
    ensures !readOnly && caller == c.admin != ZERO_ADDRESS && |args| >= 32
    ensures var c' := Configured(c, setting, caller, args, readOnly).value;
            && (setting != SetAdmin ==> c'.admin == c.admin) && c'.admin != ZERO_ADDRESS
            && (setting != SetTreasury ==> c'.treasury == c.treasury) && Treasury(c') != ZERO_ADDRESS
            && (setting != SetBurnRatio ==> c'.burnBPS == c.burnBPS) && (ConfigSound(c) ==> ConfigSound(c'))
            && (setting != SetEnabled ==> c'.enabled == c.enabled)
  {
    assert DEFAULT_TREASURY[0] != ZERO_ADDRESS[0];
  }

  /** Each admin call sets its field to what its argument word says, when the admin makes it and the value is one the
      field can hold. */
  lemma AdminCallSets(c: Config, caller: Address, args: seq<byte>, readOnly: bool)
    requires !readOnly && caller == c.admin != Zeros(20) && |args| >= 32
    ensures var a := args[12..32];
            && Configured(c, SetAdmin, caller, args, readOnly)
               == (if a == Zeros(20) then Err(InvalidAddress) else Ok(c.(admin := a)))
            && Configured(c, SetTreasury, caller, args, readOnly)
               == (if a == Zeros(20) then Err(InvalidAddress) else Ok(c.(treasury := a)))
    ensures var n := FromBE(args[24..32]);
            Configured(c, SetBurnRatio, caller, args, readOnly)
            == if n > 10_000 then Err(InvalidRatio) else Ok(c.(burnBPS := Some(n)))
    ensures Configured(c, SetEnabled, caller, args, readOnly) == Ok(c.(enabled := Some(args[31] != 0)))
  {
  }

  /** Everyone else, and everyone in read-only mode, is refused; so are short arguments. */
  lemma OthersAreRefused(c: Config, setting: Setting, caller: Address, args: seq<byte>, readOnly: bool)
    ensures readOnly || c.admin == Zeros(20) || caller != c.admin ==>
              Configured(c, setting, caller, args, readOnly) == Err(Unauthorized)
    ensures !readOnly && caller == c.admin != Zeros(20) && |args| < 32 ==>
              Configured(c, setting, caller, args, readOnly) == Err(InvalidInput)
  {
  }

  /** With nothing configured the split is on, half is burned, and the rest is the default treasury's. */
  lemma DefaultsAre(c: Config, value: nat)
    requires c == Config(Zeros(20), Zeros(20), None, None) && value < 0x1_0000_0000_0000_0000
    ensures Enabled(c) && BurnBPS(c) == 5_000 && Burn(value, BurnBPS(c)) == value / 2
    ensures Treasury(c)[..4] == [0x90, 0x11, 0xe8, 0x88] && Treasury(c)[16..] == [0xde, 0xd9, 0x47, 0x14]
  {
    HalfIs(value);
  }

  lemma HalfIs(value: nat)
    requires value < 0x1_0000_0000_0000_0000
    ensures value * 5_000 % U256 / 10_000 == value / 2
  {
    SmallMod(value * 5_000, U256);
  }

  /** What is set is what is used. */
  lemma SettingsAreUsed(c: Config)
    ensures c.treasury != Zeros(20) ==> Treasury(c) == c.treasury
    ensures c.burnBPS.Some? ==> BurnBPS(c) == c.burnBPS.value
    ensures c.enabled.Some? ==> Enabled(c) == c.enabled.value
  {
  }

  class DeadPrecompile {
    var balance: map<Address, nat>
    var burned: map<Address, nat>
    var config: Config
    ghost var deposited: map<Address, nat>
    ghost var paid: map<Address, nat>

    ghost function State(): Chain
      reads this
    {
      Chain(balance, burned, config, deposited, paid)
    }

    constructor (genesis: map<Address, nat>, c: Config)
      ensures State() == Chain(genesis, map[], c, genesis, map[])
    {
      balance, burned, config, deposited, paid := genesis, map[], c, genesis, map[];
    }

    method Transfer(from: Address, to: Address, amount: nat)
      requires amount <= At(balance, from)
      modifies this`balance, this`deposited
      ensures State() == old(Moved(State(), from, to, amount))
    {
      balance := balance[from := At(balance, from) - amount];
      balance := balance[to := (At(balance, to) + amount) % U256];
      deposited := deposited[to := At(deposited, to) + amount];
    }

    method PayOut(addr: Address, amount: nat)
      requires amount <= At(balance, addr)
      modifies this`balance, this`deposited, this`paid
      ensures State() == old(PaidOut(State(), addr, amount))
    {
      if amount != 0 {
        Transfer(addr, Treasury(config), amount);
        paid := paid[addr := At(paid, addr) + amount];
      }
    }

    method HandleReceive(addr: Address, readOnly: bool) returns (e: Option<DeadError>)
      requires ConfigSound(config)
      modifies this
      ensures (State(), e) == old(Received(State(), addr, readOnly))
    {
      hide PaidOut, Burn;
      if !Enabled(config) { return Some(Disabled); }
      var have, mark := At(balance, addr), At(burned, addr);
      if have <= mark { return None; }
      var unsplit := have - mark;
      if readOnly { return None; }
      var burnAmount, treasuryAmount := CalculateSplitUint256(unsplit, BurnBPS(config));
      PayOut(addr, treasuryAmount);
      burned := burned[addr := (mark + burnAmount) % U256];
      e := None;
    }

    /** The four admin setters: authorisation, length, then the value's own check. */
    method Configure(setting: Setting, caller: Address, args: seq<byte>, readOnly: bool) returns (e: Option<DeadError>)
      modifies this`config
      ensures var r := Configured(old(config), setting, caller, args, readOnly);
              config == (if r.Ok? then r.value else old(config)) && e == (if r.Ok? then None else Some(r.error))
    {
      if readOnly { return Some(Unauthorized); }
      if config.admin == ZERO_ADDRESS || caller != config.admin { return Some(Unauthorized); }
      if |args| < 32 { return Some(InvalidInput); }
      match setting {
        case SetAdmin =>
          if args[12..32] == ZERO_ADDRESS { return Some(InvalidAddress); }
          config := config.(admin := args[12..32]);
        case SetTreasury =>
          if args[12..32] == ZERO_ADDRESS { return Some(InvalidAddress); }
          config := config.(treasury := args[12..32]);
        case SetBurnRatio =>
          var bps := BytesToU64(args[24..32]);
          if bps > BASIS_POINTS { return Some(InvalidRatio); }
          config := config.(burnBPS := Some(bps));
        case SetEnabled =>
          config := config.(enabled := Some(args[31] != 0));
      }
      e := None;
    }
  }

  // ----- what is kept -----

  ghost function Weight(): (Address, nat) -> int {
    (a: Address, n: nat) => n
  }

  /** All balances together fit 256 bits. */
  ghost predicate SupplyFits(s: Chain) {
    SumMap(s.balance, Weight()) < U256
  }

  /** At a dead address: the mark never passes the balance, and what arrived is here or was paid out. */
  predicate Accounted(s: Chain, d: Address) {
    At(s.burned, d) <= At(s.balance, d) && At(s.balance, d) + At(s.paid, d) == At(s.deposited, d)
  }

  ghost predicate Inv(s: Chain) {
    ConfigSound(s.config) && SupplyFits(s) && forall d: Address :: IsDead(d) ==> Accounted(s, d)
  }

  lemma BalanceWithinSupply(b: map<Address, nat>, a: Address)
    ensures At(b, a) <= SumMap(b, Weight())
  {
    if a in b {
      SumMapAtLeast(b, Weight(), a);
    } else {
      SumMapNonNegative(b, Weight());
    }
  }

  lemma SetBalance(b: map<Address, nat>, a: Address, n: nat)
    ensures SumMap(b[a := n], Weight()) == SumMap(b, Weight()) - At(b, a) + n
  {
    SumMapInsert(b, Weight(), a, n);
  }

  lemma CreditFits(b: map<Address, nat>, from: Address, to: Address, amount: nat)
    requires SumMap(b, Weight()) < U256 && amount <= At(b, from)
    ensures var b': map<Address, nat> := b[from := At(b, from) - amount];
            && At(b', to) + amount < U256
            && SumMap(b'[to := (At(b', to) + amount) % U256], Weight()) == SumMap(b, Weight())
  {
    var b': map<Address, nat> := b[from := At(b, from) - amount];
    var n: nat := At(b', to) + amount;
    SetBalance(b, from, At(b, from) - amount);
    SetBalance(b', to, n);
    BalanceWithinSupply(b'[to := n], to);
    SmallMod(n, U256);
  }

  /** A transfer conserves the supply, and never wraps while the supply fits. */
  lemma MoveConserves(s: Chain, from: Address, to: Address, amount: nat, a: Address)
    requires SupplyFits(s) && amount <= At(s.balance, from)
    ensures var s' := Moved(s, from, to, amount);
            && SumMap(s'.balance, Weight()) == SumMap(s.balance, Weight())
            && At(s'.balance, a) == At(s.balance, a) - (if a == from then amount else 0) + (if a == to then amount else 0)
            && At(s'.deposited, a) == At(s.deposited, a) + if a == to then amount else 0
  {
    hide SumMap, Weight;
    CreditFits(s.balance, from, to, amount);
    MovedAt(s.balance, from, to, amount, a);
  }

  lemma MovedAt(b: map<Address, nat>, from: Address, to: Address, amount: nat, a: Address)
    requires amount <= At(b, from) && At(b[from := At(b, from) - amount], to) + amount < U256
    ensures var b': map<Address, nat> := b[from := At(b, from) - amount];
            At(b'[to := (At(b', to) + amount) % U256], a)
            == At(b, a) - (if a == from then amount else 0) + (if a == to then amount else 0)
  {
    var b': map<Address, nat> := b[from := At(b, from) - amount];
    SmallMod(At(b', to) + amount, U256);
  }

  /** The treasury's share of the new funds at `addr`. */
  function TreasuryShare(s: Chain, addr: Address): (amount: nat)
    requires ConfigSound(s.config) && At(s.balance, addr) >= At(s.burned, addr)
    ensures amount <= At(s.balance, addr) - At(s.burned, addr)
  {
    var unsplit := At(s.balance, addr) - At(s.burned, addr);
    BurnWithin(unsplit, BurnBPS(s.config));
    unsplit - Burn(unsplit, BurnBPS(s.config))
  }

  lemma ReceivedIs(s: Chain, addr: Address)
    requires ConfigSound(s.config) && Enabled(s.config) && At(s.balance, addr) > At(s.burned, addr)
    ensures var share := TreasuryShare(s, addr);
            Received(s, addr, false).0 == Marked(PaidOut(s, addr, share), addr, At(s.balance, addr) - share)
  {
  }

  /** What one receive of new funds does: the treasury's share is paid out, the rest is marked burned. */
  lemma ReceiveSplits(s: Chain, addr: Address)
    requires Inv(s) && Enabled(s.config) && At(s.balance, addr) > At(s.burned, addr)
    ensures var s', share := Received(s, addr, false).0, TreasuryShare(s, addr);
            && At(s'.burned, addr) == At(s.balance, addr) - share
            && At(s'.paid, addr) == At(s.paid, addr) + share
            && At(s'.balance, addr) == At(s.balance, addr) - (if Treasury(s.config) == addr then 0 else share)
            && SumMap(s'.balance, Weight()) == SumMap(s.balance, Weight())
            && s'.config == s.config
  {
    ReceivedIs(s, addr);
    ShareSplits(s, addr, TreasuryShare(s, addr));
  }

  lemma ShareSplits(s: Chain, addr: Address, share: nat)
    requires SupplyFits(s) && share <= At(s.balance, addr)
    ensures var s' := Marked(PaidOut(s, addr, share), addr, At(s.balance, addr) - share);
            && At(s'.burned, addr) == At(s.balance, addr) - share
            && At(s'.paid, addr) == At(s.paid, addr) + share
            && At(s'.balance, addr) == At(s.balance, addr) - (if Treasury(s.config) == addr then 0 else share)
            && SumMap(s'.balance, Weight()) == SumMap(s.balance, Weight())
  {
    MoveConserves(s, addr, Treasury(s.config), share, addr);
    BalanceWithinSupply(s.balance, addr);
    SmallMod(At(s.balance, addr) - share, U256);
  }

  /** After a writable receive of new funds the balance is exactly what is marked burned, if and only if the
      treasury is another address or nothing was due to it. */
  lemma ReceiveSettlesIff(s: Chain, addr: Address)
    requires Inv(s) && Enabled(s.config) && At(s.balance, addr) > At(s.burned, addr)
    ensures var s' := Received(s, addr, false).0;
            At(s'.balance, addr) == At(s'.burned, addr)
            <==> Treasury(s.config) != addr || TreasuryShare(s, addr) == 0
  {
    ReceiveSplits(s, addr);
  }

  /** In products: of the new funds the burned share is the ratio's, in hundredths of a percent, rounded down, while the
      product fits 256 bits; the treasury gets the rest, and only the two balances move. */
  lemma ReceiveIs(s: Chain, addr: Address, gained: nat, burn: nat)
    requires Inv(s) && Enabled(s.config) && At(s.balance, addr) == At(s.burned, addr) + gained && gained > 0
    requires gained * BurnBPS(s.config) < U256 && IsFloor(burn, gained * BurnBPS(s.config), 10_000)
    requires burn < gained && Treasury(s.config) != addr
    ensures var s' := Received(s, addr, false).0;
            && At(s'.burned, addr) == At(s.burned, addr) + burn
            && At(s'.paid, addr) == At(s.paid, addr) + (gained - burn)
            && At(s'.balance, addr) == At(s.balance, addr) - (gained - burn)
            && At(s'.balance, Treasury(s.config)) == At(s.balance, Treasury(s.config)) + (gained - burn)
            && forall a :: a != addr && a != Treasury(s.config) ==> At(s'.balance, a) == At(s.balance, a)
  {
    FloorIsUnique(burn, gained * BurnBPS(s.config), BASIS_POINTS);
    BurnIsFractionIff(gained, BurnBPS(s.config));
    ReceiveSplits(s, addr);
    ReceivedIs(s, addr);
    var share := TreasuryShare(s, addr);
    MoveConserves(s, addr, Treasury(s.config), share, Treasury(s.config));
  }

  /** A disabled split answers so, and a read-only or repeated receive changes nothing. */
  lemma ReceiveRefuses(s: Chain, addr: Address, readOnly: bool)
    requires ConfigSound(s.config)
    ensures !Enabled(s.config) ==> Received(s, addr, readOnly) == (s, Some(Disabled))
    ensures Enabled(s.config) && (readOnly || At(s.balance, addr) <= At(s.burned, addr)) ==>
              Received(s, addr, readOnly) == (s, None)
    ensures Enabled(s.config) ==> Received(s, addr, readOnly).1 == None
  {
  }

  /** A second receive finds nothing new: the split cannot be walked into the treasury call by call. */
  lemma ReceiveIsIdempotent(s: Chain, addr: Address, readOnly: bool)
    requires Inv(s) && Enabled(s.config) && Treasury(s.config) != addr
    ensures var s' := Received(s, addr, false).0;
            s'.config == s.config && Received(s', addr, readOnly) == (s', None)
  {
    if At(s.balance, addr) > At(s.burned, addr) {
      ReceiveSplits(s, addr);
    }
  }

  // ----- steps -----

  /** Any account but a dead one may send; a dead address only receives and is settled by calls. */
  datatype Step =
    | Send(from: Address, to: Address, amount: nat)
    | Receive(addr: Address, readOnly: bool)
    | Admin(setting: Setting, caller: Address, args: seq<byte>, readOnly: bool)

  predicate Callable(s: Chain, t: Step) {
    match t
    case Send(from, _, amount) => !IsDead(from) && amount <= At(s.balance, from)
    case Receive(addr, _) => IsDead(addr)
    case Admin(_, _, _, _) => true
  }

  function Next(s: Chain, t: Step): Chain
    requires ConfigSound(s.config) && Callable(s, t)
  {
    match t
    case Send(from, to, amount) => Moved(s, from, to, amount)
    case Receive(addr, readOnly) => Received(s, addr, readOnly).0
    case Admin(setting, caller, args, readOnly) =>
      match Configured(s.config, setting, caller, args, readOnly)
      case Ok(c) => s.(config := c)
      case Err(_) => s
  }

  lemma SendKeepsAccounts(s: Chain, from: Address, to: Address, amount: nat, d: Address)
    requires SupplyFits(s) && Accounted(s, d) && amount <= At(s.balance, from) && d != from
    ensures Accounted(Moved(s, from, to, amount), d)
  {
    MoveConserves(s, from, to, amount, d);
  }

  lemma PayKeepsOthers(s: Chain, addr: Address, amount: nat, d: Address)
    requires SupplyFits(s) && Accounted(s, d) && amount <= At(s.balance, addr) && d != addr
    ensures Accounted(PaidOut(s, addr, amount), d)
  {
    MoveConserves(s, addr, Treasury(s.config), amount, d);
  }

  /** Paying out of an address and marking the rest of its new funds keeps its own account. */
  lemma PayKeepsOwn(s: Chain, addr: Address, amount: nat)
    requires SupplyFits(s) && Accounted(s, addr) && amount <= At(s.balance, addr) - At(s.burned, addr)
    ensures Accounted(Marked(PaidOut(s, addr, amount), addr, At(s.balance, addr) - amount), addr)
  {
    MoveConserves(s, addr, Treasury(s.config), amount, addr);
    BalanceWithinSupply(s.balance, addr);
  }

  lemma ShareKeepsAccounts(s: Chain, addr: Address, share: nat, d: Address)
    requires SupplyFits(s) && Accounted(s, addr) && Accounted(s, d)
    requires share <= At(s.balance, addr) - At(s.burned, addr)
    ensures Accounted(Marked(PaidOut(s, addr, share), addr, At(s.balance, addr) - share), d)
  {
    if d == addr {
      PayKeepsOwn(s, addr, share);
    } else {
      PayKeepsOthers(s, addr, share, d);
    }
  }

  lemma ReceiveKeepsAccounts(s: Chain, addr: Address, d: Address)
    requires Inv(s) && Enabled(s.config) && IsDead(d)
    requires IsDead(addr) && At(s.balance, addr) > At(s.burned, addr)
    ensures Accounted(Received(s, addr, false).0, d)
  {
    hide Accounted, PaidOut, Marked, Burn, SupplyFits, Received;
    assert Accounted(s, addr) && Accounted(s, d);
    ReceivedIs(s, addr);
    ShareKeepsAccounts(s, addr, TreasuryShare(s, addr), d);
  }

  lemma NextKeepsInv(s: Chain, t: Step)
    requires Inv(s) && Callable(s, t)
    ensures Inv(Next(s, t))
  {
    match t
    case Send(from, to, amount) =>
      MoveConserves(s, from, to, amount, from);
      forall d: Address | IsDead(d)
        ensures Accounted(Next(s, t), d)
      {
        SendKeepsAccounts(s, from, to, amount, d);
      }
    case Receive(addr, readOnly) =>
      if Enabled(s.config) && !readOnly && At(s.balance, addr) > At(s.burned, addr) {
        ReceiveSplits(s, addr);
        forall d: Address | IsDead(d)
          ensures Accounted(Next(s, t), d)
        {
          ReceiveKeepsAccounts(s, addr, d);
        }
      }
    case Admin(_, _, _, _) =>
      forall d: Address | IsDead(d)
        ensures Accounted(Next(s, t), d)
      {
        assert Accounted(s, d);
      }
  }

  /** No step lowers what is marked burned, at any address. */
  lemma BurnedNeverDecreases(s: Chain, t: Step, a: Address)
    requires Inv(s) && Callable(s, t)
    ensures At(Next(s, t).burned, a) >= At(s.burned, a)
  {
    if t.Receive? && Enabled(s.config) && !t.readOnly && At(s.balance, t.addr) > At(s.burned, t.addr) {
      ReceiveSplits(s, t.addr);
    }
  }

  // ----- runs -----

  predicate Follows(ss: seq<Chain>, ts: seq<Step>, i: nat)
    requires i < |ts| && |ss| == |ts| + 1
  {
    ConfigSound(ss[i].config) && Callable(ss[i], ts[i]) && ss[i + 1] == Next(ss[i], ts[i])
  }

  /** A run from a genesis whose balances count as deposits and of which nothing is burned. */
  ghost predicate IsRun(ss: seq<Chain>, ts: seq<Step>) {
    && |ss| == |ts| + 1 && SupplyFits(ss[0]) && ConfigSound(ss[0].config)
    && ss[0].burned == map[] && ss[0].paid == map[] && ss[0].deposited == ss[0].balance
    && forall i: nat :: i < |ts| ==> Follows(ss, ts, i)
  }

  lemma {:induction false} RunKeepsInv(ss: seq<Chain>, ts: seq<Step>, n: nat)
    requires IsRun(ss, ts) && n < |ss|
    ensures Inv(ss[n])
  {
    if n > 0 {
      RunKeepsInv(ss, ts, n - 1);
      assert Follows(ss, ts, n - 1);
      NextKeepsInv(ss[n - 1], ts[n - 1]);
    }
  }

  lemma {:induction false} BurnedGrows(ss: seq<Chain>, ts: seq<Step>, a: Address, i: nat, j: nat)
    requires IsRun(ss, ts) && i <= j < |ss|
    ensures At(ss[i].burned, a) <= At(ss[j].burned, a)
  {
    if i < j {
      BurnedGrows(ss, ts, a, i, j - 1);
      RunKeepsInv(ss, ts, j - 1);
      assert Follows(ss, ts, j - 1);
      BurnedNeverDecreases(ss[j - 1], ts[j - 1], a);
    }
  }

  /** The setting an admin call of this step makes, if it makes one. */
  predicate Configures(s: Chain, t: Step) {
    t.Admin? && Configured(s.config, t.setting, t.caller, t.args, t.readOnly).Ok?
  }

  /** Along a run the configuration stands still through any stretch in which its admin makes no call, whatever
      anyone else does; an unprovisioned precompile, which has no admin, is never configured at all. */
  lemma {:induction false} ConfigIsTheAdmins(ss: seq<Chain>, ts: seq<Step>, i: nat, j: nat)
    requires IsRun(ss, ts) && i <= j < |ss|
    requires forall k :: i <= k < j && ts[k].Admin? && ts[k].caller == ss[i].config.admin ==>
               ts[k].readOnly || ts[k].caller == ZERO_ADDRESS
    ensures ss[j].config == ss[i].config
    ensures forall k :: i <= k < j ==> !Configures(ss[k], ts[k])
  {
    if i < j {
      ConfigIsTheAdmins(ss, ts, i, j - 1);
      assert Follows(ss, ts, j - 1);
      ConfigSteps(ss[j - 1], ts[j - 1]);
    }
  }

  /** One step moves the configuration only by a call of its admin's. */
  lemma ConfigSteps(s: Chain, t: Step)
    requires ConfigSound(s.config) && Callable(s, t)
    ensures Configures(s, t) ==> t.caller == s.config.admin != ZERO_ADDRESS && !t.readOnly
    ensures !Configures(s, t) ==> Next(s, t).config == s.config
  {
    if Configures(s, t) {
      OnlyTheAdminConfigures(s.config, t.setting, t.caller, t.args, t.readOnly);
    }
  }

  /** Right after a writable receive, with the treasury elsewhere, everything ever deposited at the dead
      address is burned there or was paid to a treasury. */
  lemma DepositsAreBurnedOrPaid(ss: seq<Chain>, ts: seq<Step>, n: nat)
    requires IsRun(ss, ts) && n < |ts| && ts[n].Receive? && !ts[n].readOnly
    requires Enabled(ss[n].config) && Treasury(ss[n].config) != ts[n].addr
    ensures var d, s' := ts[n].addr, ss[n + 1];
            At(s'.balance, d) == At(s'.burned, d) && At(s'.deposited, d) == At(s'.burned, d) + At(s'.paid, d)
  {
    RunKeepsInv(ss, ts, n);
    RunKeepsInv(ss, ts, n + 1);
    assert Follows(ss, ts, n);
    var d := ts[n].addr;
    assert Accounted(ss[n], d) && Accounted(ss[n + 1], d);
    if At(ss[n].balance, d) > At(ss[n].burned, d) {
      ReceiveSettlesIff(ss[n], d);
    }
  }
}
