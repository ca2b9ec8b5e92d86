/** The phase and the redemption preview a client derives from the chain, against what the program does. */
module LaunchPhases {
  import opened Results
  import opened Redemption
  import opened Market
  import opened MarketSafety
  import opened MarketRuns

  datatype Phase = Presale | Graduating | Graduated | Redeemable

  function DerivePhase(curveComplete: bool, migrated: bool, feeHarvested: bool): Phase {
    if !curveComplete then Presale
    else if !migrated then Graduating
    else if feeHarvested then Phase.Redeemable else Graduated
  }

  function PhaseOf(c: Chain): Phase {
    DerivePhase(c.curve.complete, c.launch.migrated || c.curve.migrated, c.launch.feeHarvested)
  }

  function Order(p: Phase): nat {
    match p case Presale => 0 case Graduating => 1 case Graduated => 2 case Redeemable => 3
  }

  /** Which of the four phases a launch is in. */
  lemma PhaseIs(c: Chain)
    ensures PhaseOf(c) == Presale <==> !c.curve.complete
    ensures PhaseOf(c) == Graduating <==> c.curve.complete && !c.curve.migrated && !c.launch.migrated
    ensures PhaseOf(c) == Graduated <==>
              c.curve.complete && (c.curve.migrated || c.launch.migrated) && !c.launch.feeHarvested
    ensures PhaseOf(c) == Phase.Redeemable <==>
              c.curve.complete && (c.curve.migrated || c.launch.migrated) && c.launch.feeHarvested
  {
  }

  /** In a valid state that is the program's own gate for redemptions. */
  lemma RedeemablePhaseIff(c: Chain)
    requires Valid(c)
    ensures PhaseOf(c) == Phase.Redeemable <==> MarketRuns.Redeemable(c)
  {
  }

  /** A launch never goes back to an earlier phase, whatever transactions follow. */
  lemma PhaseNeverFalls(c: Chain, steps: seq<Step>)
    requires Valid(c)
    ensures Order(PhaseOf(Run(c, steps))) >= Order(PhaseOf(c))
  {
    RunKeeps(c, steps);
  }

  datatype Refusal = NotRedeemable | NotPositive | AboveSupply | Paused | WouldPayNothing

  datatype Preview = Preview(quote: Quote, refused: Option<Refusal>)

  /** What a client shows for a redemption: later reasons replace earlier ones, a zero payout comes last. */
  function PreviewOf(c: Chain, amount: int): Preview {
    var refused :=
      if c.env.paused then Some(Paused)
      else if amount > c.base.supply then Some(AboveSupply)
      else if amount <= 0 then Some(NotPositive)
      else if PhaseOf(c) != Phase.Redeemable then Some(NotRedeemable)
      else None;
    match RedeemQuote(c.funds.vault, c.base.supply, amount, c.launch.exitFeeBps)
    case Err(_) => Preview(Quote(0, 0, 0), refused)
    case Ok(q) =>
      if amount == 0 then Preview(Quote(0, 0, 0), refused)
      else if refused.None? && q.net == 0 then Preview(q, Some(WouldPayNothing))
      else Preview(q, refused)
  }

  /** The one reason each refusal gives, and what is previewed: the program's quote, or nothing for an amount it has none for. */
  lemma PreviewIs(c: Chain, amount: int)
    requires Valid(c)
    ensures var preview, quoted := PreviewOf(c, amount), 0 < amount <= c.base.supply;
            && (preview.refused == Some(Paused) <==> c.env.paused)
            && (preview.refused == Some(AboveSupply) <==> !c.env.paused && amount > c.base.supply)
            && (preview.refused == Some(NotPositive) <==> !c.env.paused && amount <= 0)
            && (preview.refused == Some(NotRedeemable) <==> !c.env.paused && quoted && !MarketRuns.Redeemable(c))
            && (preview.refused == Some(WouldPayNothing) <==>
                  !c.env.paused && quoted && MarketRuns.Redeemable(c) && preview.quote.net == 0)
            && preview.quote == (if quoted then RedeemQuote(c.funds.vault, c.base.supply, amount, c.launch.exitFeeBps).value
                                 else Quote(0, 0, 0))
  {
    RedeemablePhaseIff(c);
  }

  method PreviewRedeem(c: Chain, amount: int) returns (quote: Quote, refused: Option<Refusal>)
    requires Valid(c)
    ensures Preview(quote, refused) == PreviewOf(c, amount)
  {
    refused := None;
    if PhaseOf(c) != Phase.Redeemable { refused := Some(NotRedeemable); }
    if amount <= 0 { refused := Some(NotPositive); }
    if amount > c.base.supply { refused := Some(AboveSupply); }
    if c.env.paused { refused := Some(Paused); }
    if c.base.supply == 0 || amount <= 0 || amount > c.base.supply {
      return Quote(0, 0, 0), refused;
    }
    quote := RedeemQuote(c.funds.vault, c.base.supply, amount, c.launch.exitFeeBps).value;
    if refused.None? && quote.net == 0 { refused := Some(WouldPayNothing); }
  }

  /**
   * The preview against the program: a holder's redemption succeeds exactly when the preview refuses
   * nothing, the holder has the tokens, and neither a transfer hook nor a frozen vault (which the
   * preview does not look at) stands in the way; it then pays the previewed net amount.
   */
  lemma PreviewAgrees(c: Chain, amount: nat, held: nat)
    requires Valid(c) && held <= c.base.others
    ensures var preview, redeem := PreviewOf(c, amount), Redeem(amount, held, ToHolder);
            && (Execute(c, redeem).Ok? <==> preview.refused.None? && amount <= held && !c.env.hook && !c.env.vaultFrozen)
            && (Execute(c, redeem).Ok? ==> Payout(c, redeem) == preview.quote.net)
  {
    assert c.base.others <= c.base.supply;
    var r := ComputeRedeem(c.funds.vault, c.base.supply, amount, c.launch.exitFeeBps);
    if 0 < amount <= c.base.supply {
      assert r.Err? ==> r.error == RedeemError.NothingToRedeem;
    }
  }
}
