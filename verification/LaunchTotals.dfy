/** The launch's running totals: what the program counts, and how the counts reconcile with the balances. */
module LaunchTotals {
  import opened Results
  import opened Redemption
  import opened Market
  import opened MarketSafety
  import opened MarketRuns
  import opened MarketPayments

  /** The counters of a launch account. */
  datatype Totals = Totals(
    harvestedQuote: nat,
    burnedBase: nat,
    redeemedBase: nat,
    redeemedQuote: nat,
    exitFees: nat,
    platformQuote: nat,
    creatorQuote: nat)

  const NONE := Totals(0, 0, 0, 0, 0, 0, 0)

  function Gain(before: nat, after: nat): nat {
    if after >= before then after - before else 0
  }

  /** The growth of the three balances, beside the base that was burned. */
  function Grown(f: Funds, g: Funds, burned: nat): Totals {
    NONE.(harvestedQuote := Gain(f.vault, g.vault), burnedBase := burned,
          platformQuote := Gain(f.platform, g.platform), creatorQuote := Gain(f.creator, g.creator))
  }

  /** What one harvest counts. */
  function HarvestCounts(c: Chain, d: Chain): Totals {
    Grown(c.funds, d.funds, Gain(d.base.supply, c.base.supply))
  }

  function BurnCounts(c: Chain, d: Chain): Totals {
    NONE.(burnedBase := Gain(d.base.supply, c.base.supply))
  }

  /** What a redemption counts: the amount, what left the vault and the fee of the quote. */
  function RedeemCounts(c: Chain, d: Chain, amount: nat): Totals {
    NONE.(redeemedBase := amount,
          redeemedQuote := Gain(d.funds.vault, c.funds.vault),
          exitFees := match ComputeRedeem(c.funds.vault, c.base.supply, amount, c.launch.exitFeeBps)
                      case Ok(quote) => quote.fee
                      case Err(_) => 0)
  }

  /** What one transaction counts; a failed one counts nothing. */
  function Counts(c: Chain, s: Step): Totals {
    if Execute(c, s).Err? then NONE
    else if IsHarvest(s) then HarvestCounts(c, Apply(c, s))
    else match s
      case BurnClaimerBase => BurnCounts(c, Apply(c, s))
      case Redeem(amount, _, _) => RedeemCounts(c, Apply(c, s), amount)
      case _ => NONE
  }

  /** A redemption counts the amount it burns, and splits the gross value of the quote into payout and fee. */
  lemma RedemptionCountsGross(c: Chain, s: Step)
    requires s.Redeem? && Execute(c, s).Ok?
    ensures RedeemQuote(c.funds.vault, c.base.supply, s.amount, c.launch.exitFeeBps).Ok?
    ensures var x, q := Counts(c, s), RedeemQuote(c.funds.vault, c.base.supply, s.amount, c.launch.exitFeeBps).value;
            x.redeemedBase == s.amount && x.redeemedQuote == q.net && x.exitFees == q.fee
  {
    RedeemAccount(c, s);
  }

  // ------------------------------------------------------------ saturating counters

  function SaturatingAdd(a: nat, b: nat): nat {
    if a + b <= U64_MAX then a + b else U64_MAX
  }

  /** The counters after an addition of the program: each sticks at the u64 maximum. */
  function Counted(t: Totals, x: Totals): Totals {
    Totals(SaturatingAdd(t.harvestedQuote, x.harvestedQuote), SaturatingAdd(t.burnedBase, x.burnedBase),
           SaturatingAdd(t.redeemedBase, x.redeemedBase), SaturatingAdd(t.redeemedQuote, x.redeemedQuote),
           SaturatingAdd(t.exitFees, x.exitFees), SaturatingAdd(t.platformQuote, x.platformQuote),
           SaturatingAdd(t.creatorQuote, x.creatorQuote))
  }

  /** The exact sums. */
  function Plus(t: Totals, x: Totals): Totals {
    Totals(t.harvestedQuote + x.harvestedQuote, t.burnedBase + x.burnedBase, t.redeemedBase + x.redeemedBase,
           t.redeemedQuote + x.redeemedQuote, t.exitFees + x.exitFees, t.platformQuote + x.platformQuote,
           t.creatorQuote + x.creatorQuote)
  }

  function CountersAfter(t: Totals, c: Chain, steps: seq<Step>): Totals
    decreases |steps|
  {
    if steps == [] then t
    else CountersAfter(Counted(t, Counts(c, steps[0])), Apply(c, steps[0]), steps[1..])
  }

  function Sums(c: Chain, steps: seq<Step>): Totals
    decreases |steps|
  {
    if steps == [] then NONE else Plus(Counts(c, steps[0]), Sums(Apply(c, steps[0]), steps[1..]))
  }

  lemma SaturatingChains(a: nat, b: nat, x: nat)
    ensures SaturatingAdd(SaturatingAdd(a, b), x) == SaturatingAdd(a, b + x)
  {
  }

  lemma CountedChains(t: Totals, x: Totals, y: Totals)
    ensures Counted(Counted(t, x), y) == Counted(t, Plus(x, y))
  {
    SaturatingChains(t.harvestedQuote, x.harvestedQuote, y.harvestedQuote);
    SaturatingChains(t.burnedBase, x.burnedBase, y.burnedBase);
    SaturatingChains(t.redeemedBase, x.redeemedBase, y.redeemedBase);
    SaturatingChains(t.redeemedQuote, x.redeemedQuote, y.redeemedQuote);
    SaturatingChains(t.exitFees, x.exitFees, y.exitFees);
    SaturatingChains(t.platformQuote, x.platformQuote, y.platformQuote);
    SaturatingChains(t.creatorQuote, x.creatorQuote, y.creatorQuote);
  }

  predicate FitU64(t: Totals) {
    t.harvestedQuote <= U64_MAX && t.burnedBase <= U64_MAX && t.redeemedBase <= U64_MAX && t.redeemedQuote <= U64_MAX
    && t.exitFees <= U64_MAX && t.platformQuote <= U64_MAX && t.creatorQuote <= U64_MAX
  }

  /** Saturation never loses more than the excess: after any run each counter is its exact sum, capped. */
  lemma {:induction false} CountersAreCappedSums(t: Totals, c: Chain, steps: seq<Step>)
    requires FitU64(t)
    ensures CountersAfter(t, c, steps) == Counted(t, Sums(c, steps))
    decreases |steps|
  {
    if steps == [] {
      assert Counted(t, NONE) == t;
    } else {
      var x, d := Counts(c, steps[0]), Apply(c, steps[0]);
      CountersAreCappedSums(Counted(t, x), d, steps[1..]);
      CountedChains(t, x, Sums(d, steps[1..]));
    }
  }

  // ------------------------------------------------------------ the books of one step

  /**
   * What moves the same balances without being counted: the mint of the pool, donations to the vault,
   * base that holders burn and that the pool burns at the migration, and what redeemers and
   * outsiders send the payees and what these spend.
   */
  datatype Others = Others(minted: nat, donated: nat, burned: nat, toPlatform: nat, toCreator: nat,
                           platformSpent: nat, creatorSpent: nat)

  const NO_OTHERS := Others(0, 0, 0, 0, 0, 0, 0)

  function OthersOf(c: Chain, s: Step): Others {
    if Execute(c, s).Err? then NO_OTHERS
    else match s
      case CreatePool(minted) => NO_OTHERS.(minted := minted)
      case DonateToVault(quote) => NO_OTHERS.(donated := quote)
      case BurnByHolder(amount) => NO_OTHERS.(burned := amount)
      case MigrateDammV2(_) => NO_OTHERS.(burned := c.curve.unsold)
      case PayeesSpend(platform, creator) => NO_OTHERS.(platformSpent := platform, creatorSpent := creator)
      case PayPayees(platform, creator) => NO_OTHERS.(toPlatform := platform, toCreator := creator)
      case Redeem(_, _, to) =>
        NO_OTHERS.(toPlatform := if to == ToPlatform then Payout(c, s) else 0,
                   toCreator := if to == ToCreator then Payout(c, s) else 0)
      case _ => NO_OTHERS
  }

  function Both(o: Others, p: Others): Others {
    Others(o.minted + p.minted, o.donated + p.donated, o.burned + p.burned, o.toPlatform + p.toPlatform, o.toCreator + p.toCreator,
           o.platformSpent + p.platformSpent, o.creatorSpent + p.creatorSpent)
  }

  /** The exact changes of the vault, the payees' accounts and the supply. */
  predicate Books(c: Chain, d: Chain, x: Totals, o: Others) {
    && d.funds.vault + x.redeemedQuote == c.funds.vault + x.harvestedQuote + o.donated
    && d.funds.platform + o.platformSpent == c.funds.platform + x.platformQuote + o.toPlatform
    && d.funds.creator + o.creatorSpent == c.funds.creator + x.creatorQuote + o.toCreator
    && d.base.supply + x.burnedBase + x.redeemedBase + o.burned == c.base.supply + o.minted
  }

  lemma RedeemBooks(c: Chain, s: Step)
    requires Valid(c) && s.Redeem?
    ensures Books(c, Apply(c, s), Counts(c, s), OthersOf(c, s))
  {
    RedeemAccount(c, s);
  }

  lemma HarvestBurns(c: Chain, s: Step)
    requires Valid(c) && IsHarvest(s) && Execute(c, s).Ok?
    ensures Apply(c, s).base.supply <= c.base.supply
  {
    if s.HarvestCurveFees? {
      CurveHarvestBurnsBase(c, s.createPlatformAccount);
    } else if s.HarvestLpFees? {
      LpHarvestBurnsBase(c, s.position);
    }
  }

  lemma HarvestBooks(c: Chain, s: Step)
    requires Valid(c) && IsHarvest(s)
    ensures Books(c, Apply(c, s), Counts(c, s), OthersOf(c, s))
  {
    if Execute(c, s).Ok? {
      EveryHarvestAccounts(c, s);
      HarvestBurns(c, s);
    }
  }

  lemma OtherBooks(c: Chain, s: Step)
    requires Valid(c) && !IsHarvest(s) && !s.Redeem?
    ensures Books(c, Apply(c, s), Counts(c, s), OthersOf(c, s))
  {
  }

  lemma StepBooks(c: Chain, s: Step)
    requires Valid(c)
    ensures Books(c, Apply(c, s), Counts(c, s), OthersOf(c, s))
  {
    if IsHarvest(s) {
      HarvestBooks(c, s);
    } else if s.Redeem? {
      RedeemBooks(c, s);
    } else {
      OtherBooks(c, s);
    }
  }

  // ------------------------------------------------------------ the books of a run

  function OthersOver(c: Chain, steps: seq<Step>): Others
    decreases |steps|
  {
    if steps == [] then NO_OTHERS else Both(OthersOf(c, steps[0]), OthersOver(Apply(c, steps[0]), steps[1..]))
  }

  lemma BooksChain(c: Chain, d: Chain, e: Chain, x: Totals, y: Totals, o: Others, p: Others)
    requires Books(c, d, x, o) && Books(d, e, y, p)
    ensures Books(c, e, Plus(x, y), Both(o, p))
  {
  }

  /**
   * The books balance over every run of either version, with whatever splits, fallbacks and sweeps: the
   * vault is what it was plus all that harvests brought and donors sent, less all that was redeemed; each
   * payee has what it was paid less what it spent; and the supply is what it was less all burns.
   */
  lemma {:induction false} RunBooks(c: Chain, steps: seq<Step>)
    requires Valid(c)
    ensures Books(c, Run(c, steps), Sums(c, steps), OthersOver(c, steps))
    decreases |steps|
  {
    if steps != [] {
      var s, d := steps[0], Apply(c, steps[0]);
      StepKeeps(c, s);
      StepBooks(c, s);
      RunBooks(d, steps[1..]);
      BooksChain(c, d, Run(d, steps[1..]), Counts(c, s), Sums(d, steps[1..]), OthersOf(c, s), OthersOver(d, steps[1..]));
    }
  }

  /** The pool mints once, and at most what fits u64. */
  lemma {:induction false} MintedOnce(c: Chain, steps: seq<Step>)
    requires Valid(c)
    ensures OthersOver(c, steps).minted <= (if c.curve.created then 0 else U64_MAX)
    decreases |steps|
  {
    if steps != [] {
      StepKeeps(c, steps[0]);
      StepMints(c, steps[0]);
      MintedOnce(Apply(c, steps[0]), steps[1..]);
    }
  }

  lemma StepMints(c: Chain, s: Step)
    ensures OthersOf(c, s).minted > 0 ==> !c.curve.created && OthersOf(c, s).minted <= U64_MAX && Apply(c, s).curve.created
  {
  }

  /**
   * The counters reconcile with the balances: from a launch with an empty vault whose pool is created
   * at most once, in every later state the base counters are exact, and while the two quote counters have
   * not reached the u64 maximum the vault is exactly harvested plus donated less redeemed.
   */
  lemma CountersReconcile(c: Chain, steps: seq<Step>)
    requires Valid(c) && c.funds.vault == 0 && (c.curve.created || c.base.supply == 0)
    ensures var t, d, o := CountersAfter(NONE, c, steps), Run(c, steps), OthersOver(c, steps);
            && d.base.supply + t.burnedBase + t.redeemedBase + o.burned == c.base.supply + o.minted
            && (t.harvestedQuote < U64_MAX && t.redeemedQuote < U64_MAX ==>
                  d.funds.vault + t.redeemedQuote == t.harvestedQuote + o.donated)
  {
    CountersAreCappedSums(NONE, c, steps);
    RunBooks(c, steps);
    MintedOnce(c, steps);
  }
}
