# StockFloor verification

A Dafny model of StockFloor's floor vault and of the code around it, with machine-checked properties.
`dafny verify dfyconfig.toml` checks everything (Dafny 4.11).

**The floor vault.** A launch has a vault of quote tokens behind a base supply; any holder may burn base
tokens for a pro-rata share of the vault minus an exit fee. `Market.dfy` is the launch, its bonding-curve
pool, the liquidity positions of the claimer and every balance as one step system: the program's
instructions with their guards in order, and the steps of DBC, DAMM v2, holders and donors.
`MarketSafety`, `MarketRuns` and `MarketPayments` say what holds over every run, `MarketLife` that every
launch can get to its redemptions; `LaunchProgram` is the
program's handlers as methods on mutable accounts, each with exactly the outcome of its step, and
`LaunchTotals` reconciles the counters they keep with the balances.
`Redemption` and `FeeSplits` hold the arithmetic (with `Powers` for the integer Bernoulli and weighted
AM-GM inequalities); `LaunchPhases` compares the client's preview with the program.

**The crank.** `Crank` plans the permissionless maintenance of a launch, `CrankRun` is its loop.
`CrankPlan` and `CrankSoundness` prove what a plan promises, `CrankContents` exactly what it holds,
`CrankRaces` what a run promises whatever other senders do and whatever happens to a sent transaction,
`CrankProgress` that it finishes on a quiet chain. The chain under the crank is the step system above.

**Resumable funding.** `FundPlans` builds the funding plan from balances, `FundRuns` and `FundProgram`
are the stages that send it, `FundResume` what a crash and a new plan change, `FundCompletion` when a run
ends with every wallet funded. `FundSwaps` is the swap stage with its records, `FundPurchases` and
`FundTransfers` say what is sent twice while purchases and transfers land whenever they like.

**The reserved-name index.** `Confusables` compresses a code point map into ranges and searches them;
`Skeletons` has the client's skeleton test and the program's sliding window; `SkeletonDrops` says which
code points may be dropped. `Utf8` decodes bytes as the Unicode Standard, section 3.9, lays down (one
replacement per maximal ill-formed subpart), and `NameFields` compares the two sides on raw bytes.

**Exact arithmetic and codecs.** `CurveSizing` (the one-segment curve), `Base58` over `Positional`,
`Decimals`, `Rationals` and `Amounts` (decimal text, exact rationals, raw amounts), `DeployBuffers`
(resuming an interrupted deploy).

## Where the code and its documentation differ

The model follows the code.

- A redemption split can pay more than the whole: `SplittingNeverPaysIff` shows that exactly the fees 0
  and 10000 bps exclude it. The repository's README.md:469-473 and packages/sdk/src/math.ts:46-48 say so for non-zero fees;
  the bound they give instead holds (`SplitPayoutBound`, `SplitKeepsMeasures`).
- "The transit ends empty" holds after every split harvest, but anyone can pay into the account between
  steps, a redemption may be paid to it, and a version 2 launch never sweeps it: `TransitStaysEmptyIff`,
  `TransitWitness`, `OldLaunchNeverSweeps`.
- A plan assumes only that earlier actions succeed (packages/sdk/src/crank.ts:4-5). It is executable
  exactly when the issuer and the platform account let every action through (`PlanRunsIff`), and the
  surplus it announces for a launch that is not registered yet is 0 whatever the pool owes
  (`PlanMeetsAmountsIff`).
- The crank runs "until nothing is due": with a dust minimum of 0 a fee of 0 stays due. On a quiet chain
  it finishes if and only if no fee is due at zero where a plan harvests one, and issuer and payees let every
  harvest through that plans come to (`QuietCrankFinishesIff`, `MinimumsDecide`). In the first case nobody
  can make it finish (`NeverFinishes`), and a curve minimum of 0 also starves everything after the curve
  fees (`ZeroMinimumStarves`); a blocked harvest is left over (`BlockedNeverFinishes`).
- A half-finished funding run "resumes exactly where it stopped" (scripts/c2/libfund.ts:352-359): with
  nothing in flight at a restart the transfers do (`ResumeIsExact`, `InterruptedFundingCompletes`), but one
  in flight is sent again (`SentOnceIff`), and the fee buffer is set aside again, so a resume can be
  refused, in exactly the cases of `ResumeAbortsIff`.
- A swap stage may buy more than once. The test swap does exactly when an attempt would send before the
  first purchase is settled (`TestBuysOnceIff`): after a refused receipt, while it is in flight
  (`LateLandingBuysTwice`), or after a refused quote has overwritten its pending record
  (`RefusedQuoteForgets`). The main swap does exactly when an attempt would send that neither finds the
  first purchase landed nor the need covered (`MainBuysOnceIff`); and a main swap that landed in an
  interrupted run is not topped up, which with a declined confirmation is the one way a run inside its
  plan can fail (`FundingCompletesIff`).
- The redemption preview does not look at a transfer hook or a frozen vault (`PreviewAgrees`).
- In evaluateCurve the check that prices increase and the walk's errors can never fire
  (`CurveSizing.EvaluateCurve`).

## Model

| member | source | states |
|---|---|---|
| Redemption.RedeemQuote | packages/sdk/src/math.ts:50-68 | the quote fails exactly outside its documented arguments; gross is rounded down, the fee up, and net plus fee is gross, at most the vault |
| Redemption.ComputeRedeem | programs/stockfloor/src/math.rs:52-78 | the program's quote is the SDK's; it pays exactly a positive amount with an acceptable quote and a positive payout, and `NothingToRedeem` is exactly the last of these |
| Redemption.NetWithinFeeAdjustedShare | packages/sdk/src/math.ts:46-68 | net times supply times 10000 is at most the fee-adjusted share of the vault |
| Redemption.RedeemKeepsFloor | README.md:450-453 | a redemption never lowers vault per token, and raises it strictly when a fee is paid and tokens remain |
| Redemption.PaidFee | packages/sdk/src/math.ts:64-68 | with a non-zero fee rate every redemption that pays out pays a fee |
| Redemption.RedeemKeepsPotential | README.md:469-473 | one redemption keeps V'^10000 * S^(10000-b) >= V^10000 * S'^(10000-b): an integer weighted AM-GM |
| Redemption.GrowthKeepsPotential | README.md:454-464 | a step that only raises the vault or lowers the supply keeps the same fee-weighted potential |
| Redemption.MeasuresChain | README.md:469-473 | floor and potential inequalities compose across steps while tokens remain |
| Redemption.SplitKeepsMeasures | README.md:469-473 | every split of a redemption, of any length, keeps the floor and the fee-weighted potential: the continuous limit bounds it |
| Redemption.SplitPayoutBound | packages/sdk/src/math.ts:46-48 | the pieces of any split together pay at most floor(vault * redeemed / supply) of the starting state |
| Redemption.SplittingNeverPaysIff | packages/sdk/src/math.ts:46-48 | no split of any redemption pays more than one redemption of the sum if and only if the fee is 0 or 10000 bps; every fee between has a counterexample |
| Redemption.SplitWitness | packages/sdk/src/math.ts:46-48 | for every fee strictly between, two equal pieces of one redemption that pay more than it |
| FeeSplits.GraduationSplit | packages/sdk/src/math.ts:322-337 | fails exactly outside u64; the parts sum to the received fee; payee cuts are capped at 5% of the threshold and the vault gets something only once both cuts are full |
| FeeSplits.LpFeeSplit | packages/sdk/src/math.ts:343-348 | fails exactly outside u64; the parts sum to the harvest and the vault keeps at least 30% |
| FeeSplits.PartnerMigrationFee | packages/sdk/src/crank.ts:159-165 | the partner fee is at most the threshold and, without a creator part, exactly floor(threshold * pct / 100) |
| FeeSplits.CreatorShare | packages/sdk/src/crank.ts:159-165 | what the partner misses of the fee is exactly the creator's percentage, rounded down |
| FeeSplits.GraduationShares | packages/sdk/src/math.ts:322-337 | for every threshold and percentage in [40, 70] neither cut is clamped, the vault is within two units above floor(T(mf-10)/100), and it is 0 only when the fee is 0 |
| FeeSplits.LpCuts | packages/sdk/src/math.ts:343-348 | the three parts of an LP harvest are a fifth, a half and the rest |
| FeeSplits.VaultShareBounds | packages/sdk/src/math.ts:343-348 | ten times the vault's part of one harvest lies between 3q and 3q + 13 |
| FeeSplits.LpHistory | packages/sdk/src/math.ts:343-348 | over every sequence of harvests the parts sum to the total and the vault has at least 3/10 and less than 3/10 + 1.3 per harvest |
| FeeSplits.CuttingHarvests | packages/sdk/src/math.ts:343-348 | cutting a total into more harvests never lowers the vault's sum and raises it by less than two units per harvest |
| MarketSafety.StepKeeps | programs/stockfloor/src/lib.rs:43-94 | every transaction of anyone, whatever its outcome, keeps the invariant, every unit of quote, the fixed parameters and every latch |
| MarketSafety.RunKeeps | README.md:450-464 | the same over every run: quote total constant, latches never reset, supply never grows |
| MarketSafety.CurveFeesKeep | programs/stockfloor/src/instructions/harvest_curve_fees.rs:174-262 | a curve fee harvest moves exactly the owed fee and burns the claimer's base |
| MarketSafety.MigrationFeeKeeps | programs/stockfloor/src/instructions/harvest_dbc_quote.rs:220-330 | the migration fee harvest keeps all quote across the three-way split with its fallbacks |
| MarketSafety.LpFeesKeep | programs/stockfloor/src/instructions/harvest_lp_fees.rs:159-308 | an LP harvest empties one position and keeps all quote and base |
| MarketSafety.RedeemKeeps | programs/stockfloor/src/instructions/redeem.rs:92-195 | a redemption keeps all quote and burns what it redeems |
| MarketSafety.DistributionConserves | programs/stockfloor/src/instructions/fee_split.rs:82-165 | distributing a harvest moves every unit of it, and of what the transit held, to exactly one party |
| MarketRuns.VaultFallsByPayout | README.md:460-462 | the vault falls in a successful redemption only, by exactly the quoted net |
| MarketRuns.RedeemGate | programs/stockfloor/src/instructions/redeem.rs:92-135 | a redemption pays only when migrated and after the migration fee harvest, and then something |
| MarketRuns.RedemptionStaysOpen | programs/stockfloor/src/instructions/redeem.rs:92-135 | once open, redemption is open in every later state and is refused exactly for an issuer block, a bad amount, a zero payout or a destination that is the vault or cannot receive |
| MarketRuns.OneShotOnce | programs/stockfloor/src/lib.rs:58-68 | registration, migration fee and surplus each succeed at most once in any run, and once exactly when their latch turns |
| MarketRuns.MigratedLatchIff | programs/stockfloor/src/instructions/redeem.rs:98-108 | after any run the migration is latched exactly when it was before, or some step noted it: any successful redemption, and a migration fee or surplus harvest or a sync of a migrated pool |
| MarketRuns.LatchedRedemption | programs/stockfloor/src/instructions/redeem.rs:98-108 | behind the latch a redemption has the same outcome whatever DBC's pool says, so no later change of DBC can lock it |
| MarketRuns.StepKeepsMeasures | README.md:450-464 | no transaction lowers the floor or the fee-weighted potential |
| MarketRuns.RunKeepsMeasures | README.md:450-473 | no interleaving of redemptions, harvests, burns, donations and trades lowers the floor or the potential |
| MarketRuns.RunRaisesFloor | README.md:452-453 | the floor rises strictly over every run with a fee-paying redemption that leaves tokens |
| MarketRuns.RedeemersBound | README.md:469-473 | in every run of redemptions the total payout is at most floor(V0 * redeemed / S0) |
| MarketRuns.FreeSplitsPayNoMore | README.md:469-470 | at zero fee no run of redemptions pays more than one redemption of the sum |
| MarketPayments.CreatedLaunches | programs/stockfloor/src/instructions/create_launch.rs:131-208 | of the checks on amounts, creation accepts exactly the documented ranges with a non-zero partner fee, and starts inside the invariant |
| MarketPayments.VaultEmptyIff | programs/stockfloor/src/external.rs:142-150 | the vault's part of the migration fee is 0 exactly when the whole fee is |
| MarketPayments.FloorNeverZero | README.md:612-623 | from the migration fee harvest on, over every run, the vault is non-empty while any token exists |
| MarketPayments.OldLaunchLedger | programs/stockfloor/src/lib.rs:52-61 | over every run of a version 2 launch the vault gains every harvested fee and every donation in full and loses the payouts only; platform and creator never have more than what redeemers and outsiders sent them |
| MarketPayments.EveryHarvestAccounts | programs/stockfloor/src/lib.rs:43-61 | every harvest of either version accounts for exactly what it received; no party loses, and payees and transit are touched only by a version 3 harvest other than the surplus |
| MarketPayments.SplitHarvestAccounts | programs/stockfloor/src/instructions/fee_split.rs:82-165 | a split harvest moves exactly what was received plus the whole transit to the three parties, empties the transit, never lowers the vault and pays nothing to a payee that cannot receive |
| MarketPayments.LpHarvestParts | programs/stockfloor/src/instructions/harvest_lp_fees.rs:159-308 | with payable payees an LP harvest pays a half, a fifth and the rest, plus the swept transit, to the vault |
| MarketPayments.MigrationHarvestParts | programs/stockfloor/src/instructions/harvest_dbc_quote.rs:211-330 | with payable payees each cut is floor(5% of the threshold) and the vault grows by the promised share and at most two units, plus the swept transit |
| MarketPayments.PayeesCannotBlock | README.md:612-623 | the state of the payees' accounts never changes the outcome of a harvest or a redemption; what a payee misses the vault gets |
| MarketPayments.CurveFeesWaitForPlatform | programs/stockfloor/src/instructions/harvest_curve_fees.rs:183-226 | a version 3 curve fee harvest succeeds exactly when the platform account can receive or is created on the way, and pays it everything; else the fees stay owed |
| MarketPayments.CurveHarvestBurnsBase | programs/stockfloor/src/token_utils.rs:209-238 | a curve fee harvest burns exactly what it received and all the claimer held; holders keep theirs |
| MarketPayments.LpHarvestBurnsBase | programs/stockfloor/src/token_utils.rs:209-238 | so does an LP harvest |
| MarketPayments.TransitStaysEmptyIff | programs/stockfloor/src/instructions/fee_split.rs:82-165 | an empty transit stays empty exactly unless someone pays into it: a donation or a redemption to that account |
| MarketPayments.TransitEmptyOverRuns | programs/stockfloor/src/instructions/fee_split.rs:82-165 | the transit is empty between all steps of every run in which nobody pays into it |
| MarketPayments.OldLaunchNeverSweeps | programs/stockfloor/src/instructions/harvest_dbc_quote.rs:211-219 | a version 2 launch never empties its transit |
| MarketPayments.TransitWitness | programs/stockfloor/src/instructions/fee_split.rs:64-80 | anyone can fill the transit with a donation of one unit |
| MarketLife.LaunchesOpen | programs/stockfloor/src/lib.rs:43-94 | every accepted launch with an unreserved name reaches an open redemption in six transactions, unless the issuer interferes: supply is exactly what is held, and the vault has the promised share, exactly so with payable payees |
| MarketLife.CreatedIsNew | programs/stockfloor/src/instructions/create_launch.rs:131-208 | an accepted launch starts as such, with its parameters and nothing in it |
| MarketLife.OthersMoveTheirs | README.md:450-464 | donors and holders can always move what is theirs, down to the last unit, and no more |
| LaunchProgram.Accounts.HarvestCurveFees | programs/stockfloor/src/instructions/harvest_curve_fees.rs:174-262 | the handler, check by check, has exactly the outcome of the step, or the error of an account that comes back encumbered, and adds exactly what the balances moved to the running totals; `VaultDecreased` never fires |
| LaunchProgram.Accounts.HarvestMigrationFee | programs/stockfloor/src/instructions/harvest_dbc_quote.rs:220-330 | the same, with one transfer per payee; `TransitNotEmptied`, `VaultBalanceMismatch` and `VaultDecreased` never fire |
| LaunchProgram.Accounts.HarvestSurplus | programs/stockfloor/src/instructions/harvest_dbc_quote.rs:342-386 | the same; `VaultDecreased` never fires |
| LaunchProgram.Accounts.BurnClaimerBase | programs/stockfloor/src/instructions/burn_claimer_base.rs:54-77 | the same |
| LaunchProgram.Accounts.HarvestLpFees | programs/stockfloor/src/instructions/harvest_lp_fees.rs:159-308 | the same, after the checks that mints, pool, position and its token belong together; the transit is emptied and the vault balance reconciled |
| LaunchProgram.HarvestSucceedsIff | programs/stockfloor/src/instructions/harvest_dbc_quote.rs:196-330 | a harvest goes through exactly when its step does and every account it used comes back unencumbered, and then has the step's effect |
| LaunchProgram.LpSucceedsIff | programs/stockfloor/src/instructions/harvest_lp_fees.rs:159-308 | an LP harvest needs, besides, matching mints, pool and position token |
| LaunchProgram.Accounts.Redeem | programs/stockfloor/src/instructions/redeem.rs:92-195 | the same, with amount, payout and fee counted; `VaultBalanceMismatch`, `SupplyMismatch` and `FloorDecreased` never fire |
| LaunchProgram.Accounts.Distribute | programs/stockfloor/src/instructions/fee_split.rs:82-165 | two payouts with fallback, then the rest and the swept transit to the vault |
| LaunchTotals.CountersAreCappedSums | programs/stockfloor/src/state.rs:54-63 | after any run every saturating counter is the exact sum of what was counted, capped at the u64 maximum |
| LaunchTotals.RunBooks | programs/stockfloor/src/lib.rs:43-94 | over every run of either version the vault, both payees and the supply change by exactly what the program counts and what donors, holders, payees, outsiders and the pool do beside it |
| LaunchTotals.CountersReconcile | programs/stockfloor/src/state.rs:54-63 | from creation on the burned and redeemed base counters are exact, and the vault is harvested plus donated less redeemed until a quote counter reaches the u64 maximum |
| LaunchTotals.RedemptionCountsGross | programs/stockfloor/src/instructions/redeem.rs:160-195 | a redemption counts its amount, its payout and its fee |
| LaunchPhases.PhaseNeverFalls | packages/sdk/src/launchState.ts:209-213 | a launch never goes back to an earlier phase, whatever transactions follow |
| LaunchPhases.PhaseIs | packages/sdk/src/launchState.ts:209-213 | which conditions each of the four phases stands for; the last is exactly the program's gate |
| LaunchPhases.PreviewRedeem | packages/sdk/src/launchState.ts:452-462 | the preview's reassigned reason is the last applicable one, a zero payout only where nothing else blocks |
| LaunchPhases.PreviewIs | packages/sdk/src/launchState.ts:452-462 | when each reason is given, and the quote that is previewed |
| LaunchPhases.PreviewAgrees | packages/sdk/src/launchState.ts:452-462 | the program accepts a holder's redemption exactly when the preview refuses nothing, the tokens are held and neither a hook nor a frozen vault (which the preview does not see) blocks; it then pays the previewed net |
| PositionOrder.SortIsStable | packages/sdk/src/crank.ts:190-190 | the order of positions is a stable permutation, largest pending quote first |
| Crank.PlanCrank | packages/sdk/src/crank.ts:132-204 | the planner as written computes the plan; `CrankContents.PlanHoldsIff` says exactly what it holds |
| Crank.BurnRidesIff | packages/sdk/src/crank.ts:199-201 | some planned harvest burns the claimer's base exactly when curve fees are due or a position is taken |
| Crank.OnceUpToHolds | packages/sdk/src/crank.ts:145-181 | each one-shot kind is in the plan exactly when due, with its amounts, in order |
| CrankPlan.DuePositionsHold | packages/sdk/src/crank.ts:183-195 | positions taken are eligible, distinct, largest first, at most the cap; one left out owes no more than any taken, and none is left out below the cap |
| CrankPlan.OwnPoolByDefault | packages/sdk/src/crank.ts:10-15 | by default every LP harvest is on the launch's own pool |
| CrankPlan.PlanShape | packages/sdk/src/crank.ts:127-130 | action keys are pairwise distinct, kinds are in order, and a standalone burn never accompanies a harvest that burns |
| CrankContents.PlanHoldsIff | packages/sdk/src/crank.ts:103-204 | the plan of a registrable launch holds an action exactly when the amounts owed exceed dust (by default 0.00001 of a whole quote token and at least one raw unit, one whole base token for a burn) and the latches leave it to do, with exactly those amounts |
| CrankContents.UnregistrablePlanIs | packages/sdk/src/crank.ts:137-144 | a launch that can never be registered is planned its burn alone, exactly when one is worth it |
| CrankContents.PositionsTaken | packages/sdk/src/crank.ts:183-195 | positions are taken within the cap (four by default) and only when covered and worth more than dust, and every such position is where one more would fit |
| CrankContents.NoSyncAfterLatch | packages/sdk/src/crank.ts:176-181 | from the latching on, no plan of any later state holds a sync |
| CrankSoundness.SucceedsIff | packages/sdk/src/crank.ts:207-258 | an action's transaction succeeds exactly under its guard and the consent of the issuer (no pause or hook, no frozen vault or, for a split, transit) and of the platform's account |
| CrankSoundness.ActionKeepsOthers | packages/sdk/src/crank.ts:4-5 | executing an action leaves every later action of the plan enabled, open and with its amounts |
| CrankSoundness.AnnouncedSplitIsPaid | packages/sdk/src/crank.ts:156-168 | with payable payees the migration fee harvest pays exactly the announced platform, creator and vault parts, plus a version 3 sweep |
| CrankSoundness.PlanRunsIff | packages/sdk/src/crank.ts:4-5 | plan soundness: in every valid state all actions of the plan succeed in order if and only if each is open (no issuer block, no frozen account it needs, no blocked platform account) |
| CrankSoundness.PlanMeetsAmountsIff | packages/sdk/src/crank.ts:156-170 | an executed plan meets every announced amount, except exactly a surplus announced before the pool is registered |
| CrankRun.RunCrank | packages/sdk/src/crank.ts:292-337 | the loop as written computes the run that all the lemmas are about |
| CrankRaces.ReportsAreFaithful | packages/sdk/src/crank.ts:304-336 | under any race: at most `maxActions` transactions, skipped only when no longer due, failed only when still due, and `remaining` is the plan of the final state |
| CrankRaces.FailedNeverResent | packages/sdk/src/crank.ts:305-325 | a key recorded as failed is never sent again |
| CrankRaces.EarlyStop | packages/sdk/src/crank.ts:304-307 | a run that stops before its cap leaves due only actions that it recorded as failed |
| CrankRaces.CrankIsRun | packages/sdk/src/crank.ts:304-336 | the final state is the run of everything that landed, seen or unseen |
| CrankRaces.CrankIsSafe | packages/sdk/src/crank.ts:304-336 | under every race the crank keeps the invariant, all quote, all latches and the floor |
| CrankProgress.ActionLowersMeasure | packages/sdk/src/crank.ts:132-204 | every action of a plan that is due above zero lowers the progress measure |
| CrankProgress.QuietCrankFinishes | packages/sdk/src/crank.ts:292-337 | on a quiet chain with enough transactions the crank of a launch that can finish, with every harvest it comes to let through, ends with nothing due, within the measure, all executed |
| CrankProgress.NothingDueMeans | packages/sdk/src/crank.ts:132-204 | an empty plan of a registrable launch means registered, harvested, migrated, synced and no dust-free fee left |
| CrankProgress.QuietCrankOpensRedemption | packages/sdk/src/crank.ts:292-337 | from a complete curve with a registrable pool, where no fee is due at zero and every harvest is let through, at most six one-shots, one action per due position and one burn open redemption |
| CrankProgress.QuietCrankFinishesIff | packages/sdk/src/crank.ts:292-337 | in every valid state some number of transactions lets every quiet run finish if and only if no fee is due at zero where a plan harvests one, and issuer and payees let every harvest through that plans come to |
| CrankProgress.BlockedNeverFinishes | packages/sdk/src/crank.ts:304-336 | a blocked harvest is left over by every quiet run, whatever else it gets done |
| CrankProgress.MinimumsDecide | packages/sdk/src/crank.ts:17-22 | for a registrable launch that nothing blocks, with a complete curve, that will migrate or holds an own-pool position, LP harvests not capped at zero: the crank finishes if and only if both dust minimums are at least 1 |
| CrankProgress.NeverFinishes | packages/sdk/src/crank.ts:304-336 | where a fee is due at zero, no run ends with nothing due, whatever other senders do and whatever happens to the transactions |
| CrankProgress.ZeroMinimumStarves | packages/sdk/src/crank.ts:17-22 | with a curve minimum of zero, and curve fee harvests let through, every transaction of every quiet run of a registrable launch after its registration is one, and something stays due |
| Confusables.BuildTable | scripts/gen-reserved-confusables.py:173-185 | the merged rows are ascending, disjoint, maximal and agree with the filtered map at every code point |
| Confusables.ListedIff | scripts/gen-reserved-confusables.py:173-185 | the table lists exactly the non-ASCII code points outside the ruled blocks that resolve, and off the hand-picked ones only those that resolve to a, l, n, o, p or t |
| Confusables.FoldToAscii | packages/sdk/src/reservedNames.ts:660-674 | the binary search returns exactly what the rules and the map say, for every code point, dropped ones included; the two rule orders agree |
| Confusables.RuledArePrintable | packages/sdk/src/reservedNames.ts:640-657 | every ruled code point is non-ASCII and stands for a printable ASCII character; client and generator agree although their rule orders differ |
| Confusables.StyledLetters | packages/sdk/src/reservedNames.ts:640-657 | each styled letter and digit of the ruled blocks folds to its plain one, whatever the table says |
| Confusables.IndexIsUnique | scripts/gen-reserved-confusables.py:7-10 | a map has only one such table, so the client's and the program's tables are identical |
| Skeletons.TokenNameSkeleton | packages/sdk/src/reservedNames.ts:688-695 | the loop computes the skeleton of the text under the map |
| Skeletons.FoldsAgree | scripts/gen-reserved-confusables.py:89-94 | the generator's ASCII fold is the client's, and folding twice is folding once |
| Skeletons.IsReservedTokenName | packages/sdk/src/reservedNames.ts:698-700 | reserved exactly when a field has a bidi control or a skeleton with the reserved word |
| Skeletons.BidiReserves | packages/sdk/src/reservedNames.ts:632-637 | each of the twelve bidi controls reserves a field by itself, and no other code point counts as one |
| Skeletons.LookAlikesReserved | packages/sdk/src/reservedNames.ts:676-700 | the word with i, l, 1, | or ! for its middle letters, in any case, is reserved |
| Skeletons.SkeletonAlphabet | packages/sdk/src/reservedNames.ts:676-685 | a skeleton holds lower case letters but i and the digits 2 to 9, keeps all of them, and exactly the look-alikes become l and o |
| Skeletons.ScanChars | programs/stockfloor/src/reserved_names.rs:745-769 | over any further code points the five-byte window finds exactly the same hits without storing the skeleton |
| Skeletons.Slide | programs/stockfloor/src/reserved_names.rs:758-764 | the window always holds the last five skeleton bytes |
| Skeletons.Feed | programs/stockfloor/src/reserved_names.rs:752-765 | one code point is dropped or enters the window, and completes a hit exactly when the window spells the word |
| Skeletons.SkeletonAppend | packages/sdk/src/reservedNames.ts:688-695 | the skeleton distributes over concatenation |
| Skeletons.SkeletonIdempotent | packages/sdk/src/reservedNames.ts:676-695 | the skeleton of a skeleton is itself |
| Skeletons.ReservedInLonger | packages/sdk/src/reservedNames.ts:6-12 | a reserved name stays reserved inside any longer name |
| Skeletons.InsertDropped | packages/sdk/src/reservedNames.ts:688-700 | inserting a dropped code point changes nothing, unless it is a bidi control, which reserves by itself |
| Skeletons.PaddingChangesNothing | programs/stockfloor/src/reserved_names.rs:15-18 | the NUL padding of a stored field never changes the verdict |
| Skeletons.CaseChangesNothing | packages/sdk/src/reservedNames.ts:676-685 | the case of ASCII letters never matters |
| NameFields.FieldScan | programs/stockfloor/src/reserved_names.rs:709-769 | on any bytes the program's scan, stretch by well-formed stretch with ill-formed subparts skipped, finds exactly the hits of the decoded text |
| NameFields.IsReservedByProgram | programs/stockfloor/src/reserved_names.rs:771-774 | reserved exactly when the decoded name or symbol has a bidi control or the reserved word in its skeleton |
| NameFields.IsReservedByClient | packages/sdk/src/launchState.ts:470-484 | the client's test of raw metadata fields has the program's verdict |
| NameFields.VerdictsAgree | packages/sdk/src/launchState.ts:470-484 | on every byte string the client's lossy decoding, with U+FFFD in and a leading byte order mark out, and the program's dropping one give the same verdict, as the map leaves both marks out |
| NameFields.NoiseBetweenAscii | programs/stockfloor/src/reserved_names.rs:1060-1093 | any bytes between two ASCII characters that decode to nothing kept, ill-formed or cut-off ones included, leave the skeleton as it was |
| NameFields.EncodedIsRead | packages/sdk/src/launchState.ts:482-483 | a well-formed field is read by both sides as the text it encodes, but for a leading byte order mark |
| Utf8.DecodeEncoded | programs/stockfloor/src/reserved_names.rs:709-727 | every text of scalar values is decoded to itself, whatever bytes follow it |
| Utf8.WellFormedIff | programs/stockfloor/src/reserved_names.rs:713-719 | bytes are well-formed exactly when they encode the text they decode to, so a text has one encoding |
| Utf8.AsciiSplits | programs/stockfloor/src/reserved_names.rs:709-727 | an ASCII byte stands for itself and separates what is around it, in any bytes |
| Utf8.TextAfterValid | programs/stockfloor/src/reserved_names.rs:711-726 | the well-formed stretch in front and the rest decode to the text of the whole |
| SkeletonDrops.DroppingNeverHidesIff | scripts/gen-reserved-confusables.py:102-104 | dropping a set of non-ASCII code points never hides a hit, in any text, if and only if none of them stands for p, l, n or t |
| SkeletonDrops.DropHidesHit | scripts/gen-reserved-confusables.py:102-104 | otherwise a concrete word is hidden |
| SkeletonDrops.BrandFilterNeverHides | scripts/gen-reserved-confusables.py:102-104 | the generator's brand filter never hides a reserved name |
| Base58.B58e | scripts/research/dbc_inspect.py:41-44 | the script's encoder computes the base conversion with leading zeros kept |
| Base58.B58d | scripts/research/dbc_inspect.py:47-51 | the script's decoder, minimal byte length included, computes the inverse conversion and fails on the first foreign character |
| Base58.IndexInAlphabet | scripts/research/dbc_inspect.py:47-49 | the position of a character in the alphabet is its digit, and there is none exactly for foreign characters |
| Base58.Base58Encode | packages/sdk/src/sender.ts:37-48 | the sender's encoder is the same function |
| Base58.DecodeEncode | scripts/research/dbc_inspect.py:41-51 | decoding undoes encoding for every byte string |
| Base58.EncodeDecode | scripts/research/dbc_inspect.py:41-51 | encoding undoes decoding for every string of the alphabet |
| Base58.DecodesIff | scripts/research/dbc_inspect.py:47-51 | a string decodes exactly when every character is in the alphabet |
| Base58.MinimalBytes | scripts/research/dbc_inspect.py:50-50 | the rounded-up bit length gives the bytes without a leading zero and loses none |
| Positional.RebaseBack | scripts/research/dbc_inspect.py:41-51 | converting a numeral with its leading zeros to another base and back is the identity |
| Decimals.ParsePrinted | scripts/c2/lib.ts:565-570 | what is printed parses back to the same raw amount, for every amount and scale |
| Decimals.PrintingIsInjective | app/src/lib/format.ts:195-203 | different amounts print differently |
| Decimals.SpaceAroundIsIgnored | app/src/lib/format.ts:195-203 | input reads the same with any ECMAScript white space around it |
| Decimals.CommaIsIgnored | app/src/lib/format.ts:195-203 | and with commas anywhere inside |
| Rationals.ReadSpelledOut | packages/sdk/src/math.ts:115-127 | every spelling the pattern accepts is read back as itself, so no text has two readings |
| Rationals.SpelledOutRead | packages/sdk/src/math.ts:115-127 | whatever is read spells the text |
| Amounts.FractionExact | packages/sdk/src/math.ts:123-140 | the rational is exactly the number that sign, digits, point and exponent stand for |
| Amounts.AcceptedIff | packages/sdk/src/math.ts:115-140 | a text is accepted exactly when, trimmed, it spells a number with a digit and a power of ten between -400 and 400 |
| Amounts.EqualMeaningsSameValue | packages/sdk/src/math.ts:119-140 | spellings of the same number give the same rational |
| Amounts.TypedAmountIsExact | app/src/lib/format.ts:195-203 | a typed amount is read as exactly the number it spells, in raw units |
| Amounts.FloorDivBounds | packages/sdk/src/math.ts:149-152 | division rounds down for either sign |
| Amounts.CeilDivBounds | packages/sdk/src/math.ts:155-158 | division rounds up for either sign |
| Amounts.SameValueSameRaw | packages/sdk/src/math.ts:164-176 | a raw amount depends on the numbers, not on their spelling |
| Amounts.EqualTextsConvertAlike | packages/sdk/src/math.ts:164-176 | equal texts convert to the same raw amount or fail alike |
| Amounts.ExactUiValue | packages/sdk/src/math.ts:160-176 | an accepted text of the exact UI value of a raw amount converts back to it |
| Amounts.UiToRawIsGreatest | packages/sdk/src/math.ts:160-176 | every accepted text converts to the greatest raw amount that is worth no more than it says, never a negative one |
| Amounts.ConvertedIff | packages/sdk/src/math.ts:160-200 | conversions fail exactly for decimals outside 0 to 30, a negative value, or a price or multiplier that is not positive |
| Amounts.RoundingIsTight | packages/sdk/src/math.ts:183-200 | up is the least amount worth it, down the greatest; they differ by at most one, and not at all where an amount is exact |
| Amounts.UsdRoundings | packages/sdk/src/math.ts:183-200 | the same for the USD conversion of accepted texts: up is the least amount worth the value, down the greatest that the value buys |
| CurveSizing.Isqrt | packages/sdk/src/dbc/curveMath.ts:82-92 | Newton's iteration ends at the floor of the square root |
| CurveSizing.GetMigrationThresholdPrice | packages/sdk/src/dbc/curveMath.ts:145-194 | the walk over the segments computes the recursive walk |
| CurveSizing.ShortIff | packages/sdk/src/dbc/curveMath.ts:188-192 | a curve falls short exactly when walking all of it costs less than the threshold |
| CurveSizing.DeltaIs | packages/sdk/src/dbc/curveMath.ts:109-122 | a price step costs the exact quotient of liquidity times width, rounded up or down |
| CurveSizing.NextPriceIs | packages/sdk/src/dbc/curveMath.ts:124-138 | the next price is the greatest that the amount reaches, inside u128 |
| CurveSizing.SizedCost | packages/sdk/src/presets.ts:374-376 | the sized segment costs exactly T, or T + 1 where the width does not divide T * 2^128 |
| CurveSizing.LandingBounds | packages/sdk/src/presets.ts:374-388 | the migration price is s1 exactly when the width divides, never above it, and at most one below it exactly when the rounding surplus is at most L; so always when D <= L |
| CurveSizing.WalkLands | packages/sdk/src/presets.ts:384-388 | the program's walk over the sized segment always succeeds and lands there |
| CurveSizing.PresetRisesIff | packages/sdk/src/presets.ts:76-88 | prices increase for a start price of at least 11 (gentle) or 201 (flat) and for no smaller one |
| CurveSizing.EvaluateCurve | packages/sdk/src/presets.ts:355-388 | a curve exists exactly inside the price range with a u128 liquidity; the other checks never fail |
| CurveSizing.RefineStart | packages/sdk/src/presets.ts:456-477 | the start prices tried are exactly the refinements sqrt(s^2 * supply / target) of the first, each different from the one before; settled exactly when one of the first four refines to itself, else all five are tried, and None exactly when one of them throws |
| CurveSizing.SearchIsUnique | packages/sdk/src/presets.ts:462-475 | a first price and a supply function have one such outcome only |
| CurveSizing.SettledMeetsTarget | packages/sdk/src/presets.ts:434-444 | a settled start price meets the supply target to within one step of the price |
| FundPlans.BuildFundPlan | scripts/c2/libfund.ts:360-470 | rows, totals, estimate and abort reasons as the script builds them, the later reason winning; `RowIs`, `SummaryIs` and `RefusedIff` say what they are |
| FundPlans.LiveRequirementIs | scripts/c2/libfund.ts:340-350 | the live requirement is nothing where the plan exports none, the number its digits spell whatever space is around them, and an error for any other text |
| FundPlans.RowIs | scripts/c2/libfund.ts:369-400 | a planned wallet is refused when no balances name its role, when the first that do have another address, or for its live requirement; else its row holds those balances and its goal |
| FundPlans.FirstRefused | scripts/c2/libfund.ts:369-400 | without a plan, the first planned wallet that is refused says why |
| FundPlans.SummaryIs | scripts/c2/libfund.ts:403-416 | the plan buys exactly what the wallets lack beyond the deployer's holding, counts exactly the missing accounts, and is complete exactly when every wallet meets its goal |
| FundPlans.EstimateIsWorst | scripts/c2/libfund.ts:417-428 | the swap estimate is the most that swaps may cost within the price and its margin |
| FundPlans.RefusedIff | scripts/c2/libfund.ts:430-448 | a plan is refused exactly without prices, or when some swap cost within price and margin would leave the deployer below its minimum; for want of lamports exactly when it would take more than the deployer holds |
| FundPlans.GoalOf | scripts/c2/libfund.ts:375-380 | a goal covers the planned amount and 110% of the live requirement, and is the one or the other rounded up |
| FundPlans.VerifyEndState | scripts/c2/libfund.ts:645-696 | lists exactly the shortfalls of every wallet, then the deployer's |
| FundPlans.ShortfallIff | scripts/c2/libfund.ts:645-696 | a shortfall is listed exactly when a wallet of that role lacks exactly that amount |
| FundPlans.CompleteIff | scripts/c2/libfund.ts:468-470 | a complete plan, an end state without shortfalls and every goal met are the same |
| FundRuns.DoConserves | scripts/c2/fund.ts:908-1331 | one stage step keeps sent plus missing per wallet, and moves the deployer's surplus by fees and swaps only |
| FundRuns.ExecuteConserves | scripts/c2/fund.ts:908-1331 | so does every sequence of steps cut off anywhere |
| FundRuns.FailsIff | scripts/c2/fund.ts:908-1331 | a step fails exactly when declined, or when it has something to send and the account, the quote units, the minimum, the lamports or the process is missing, and then changes nothing; a step that sends costs its amount, its fee and one transaction |
| FundResume.ResumeIsExact | scripts/c2/libfund.ts:352-359 | however often the process dies and restarts, with no transfer in flight when one starts, each wallet was sent nothing or exactly its first shortfall, and the present plan is exactly the rest |
| FundTransfers.SentOnceIff | scripts/c2/fund.ts:908-931 | with transfers that land whenever they like, a wallet is sent at most its first shortfall if and only if no process looks at it while its first transfer is in flight; it is then sent nothing or exactly that |
| FundResume.ReplanIsSummary | scripts/c2/libfund.ts:360-400 | planning on the new balances keeps every goal and sees exactly the present rows |
| FundResume.TransfersKeepThePlan | scripts/c2/libfund.ts:403-434 | transfers leave what is to be bought and its estimate unchanged, and the remainder falls by exactly the fees |
| FundResume.ResumeAbortsIff | scripts/c2/libfund.ts:430-448 | whatever happened before, a resume is refused exactly when fees paid, lamports swapped and growth of the swap estimate exceed the margin of the first plan, because the buffer is set aside anew |
| FundResume.TransfersAbortIff | scripts/c2/libfund.ts:430-448 | with no swap in between, exactly when the fees alone exceed it |
| FundStages.ExecuteJoin | scripts/c2/fund.ts:908-1331 | stages compose: a failure stops everything after it |
| FundStages.BuysAre | scripts/c2/fund.ts:1163-1221 | nothing is bought while enough is held; the test swap buys its amount, the main one, after a yes, exactly what is then still lacking |
| FundCompletion.StepSucceeds | scripts/c2/fund.ts:908-1331 | an affordable step succeeds and costs exactly its fee, if it sends anything, and its swap |
| FundCompletion.BuysEnoughIff | scripts/c2/fund.ts:1163-1221 | test and main swap together deliver what is missing, exactly unless a main swap that landed in an interrupted run fell short |
| FundCompletion.FundingCompletesIff | scripts/c2/fund.ts:908-1331 | a plan that is not aborted, with the fees of the transactions it sends inside the buffer and swaps that cost no more than the price and its margin, runs to the end with every goal met and the deployer above its minimum, if and only if the main swap is confirmed where asked for and no settled one leaves a shortage |
| FundCompletion.InterruptedFundingCompletes | scripts/c2/libfund.ts:352-359 | any interrupted runs with nothing in flight at a restart, the plan a new process builds, and one run within that plan, confirmed and not left short by a settled main swap: in the end every goal is met and each wallet was sent exactly its first shortfall |
| FundProgram.FundingRun.SendAllSol | scripts/c2/fund.ts:908-964 | the SOL loop performs exactly its steps, up to the first failure |
| FundProgram.FundingRun.EnsureDeployerAta | scripts/c2/fund.ts:966-1001 | the deployer's account is created when missing |
| FundProgram.FundingRun.BuyMissing | scripts/c2/fund.ts:1163-1221 | the swaps happen only while the deployer lacks quote units, the main one only when confirmed, settled ones not again, and none that would leave it below its minimum |
| FundProgram.FundingRun.TransferAll | scripts/c2/fund.ts:1223-1331 | the account and transfer loop performs exactly its steps, up to the first failure |
| FundProgram.FundingRun.RunAll | scripts/c2/fund.ts:908-1331 | the stages in order perform exactly the script, whenever the process dies |
| FundSwaps.StageOf | scripts/c2/libfund.ts:725-730 | the newest record of a stage wins |
| FundSwaps.LandedIffBalanceRose | scripts/c2/libfund.ts:736-759 | an interrupted swap counts as landed exactly when the balance rose |
| FundSwaps.PassesIff | scripts/c2/libfund.ts:545-600 | a quote passes the checks if and only if it has an output, a known deviation within the limit on either side, no looser slippage than the cap, and a larger minimum that covers a positive requirement |
| FundSwaps.ReceiptPassesIff | scripts/c2/libfund.ts:605-630 | a receipt passes exactly from the accepted minimum to 1% above the quote |
| FundSwaps.CheckedSwapDelivers | scripts/c2/libfund.ts:540-619 | for every slippage cap, a swap whose quote and receipt pass delivers the requirement, the route's minimum, at least the slippage floor and at most 1% more than quoted |
| FundSwaps.SizeQuote | scripts/c2/fund.ts:1050-1072 | the quote settled on after at most three re-quotes, each only after a usable quote that misses the window; it stops early only where no re-quote could help |
| FundSwaps.RequotesAre | scripts/c2/fund.ts:1050-1072 | the window is [required, 102% of it], and the next input aims at 101% at the rate just quoted |
| FundSwaps.OfferIs | scripts/c2/fund.ts:1073-1110 | an attempt is refused unless its quote is safe, stops before its record where the deployer would keep too little, and records the larger of the route's minimum and the slippage floor |
| FundSwaps.ThirtyLooks | scripts/c2/fund.ts:1119-1127 | a purchase that does not arrive is judged at the thirtieth look |
| FundSwaps.SwapStage.RunSwap | scripts/c2/fund.ts:1031-1161 | a run is exactly one start (look for a landed purchase, size and check the quote, refuse below the minimum, record as pending, send) and, if it sent, thirty looks with purchases landing in between, ending in a verdict or with its death; what it sends was quoted inside every limit and leaves the deployer its minimum |
| FundSwaps.AllMayLand | scripts/c2/libfund.ts:725-759 | every purchase sent and not landed may still land: two sent can both be bought, one sent is bought at most once |
| FundPurchases.TestLandingsAre | scripts/c2/fund.ts:1166-1175 | where every purchase lands before the next look, the test swap has bought exactly once per refused receipt, plus once when a purchase is on record |
| FundPurchases.TestBuysOnceIff | scripts/c2/fund.ts:1031-1175 | over all starts, landings, verdicts and deaths in any order, the test swap sends at most one purchase if and only if the first is settled (receipt accepted, or found landed under a pending record) no later than any attempt that would send |
| FundPurchases.MainStartIs | scripts/c2/fund.ts:1177-1218 | a start of the main swap sends exactly when the balance is short, no landed purchase is found and the checks pass; finding one records it as done |
| FundPurchases.MainBuysOnceIff | scripts/c2/fund.ts:1031-1218 | over all such orders and against one need, the main swap sends at most one purchase if and only if every later attempt that would send finds the first one landed, or the need covered by it |
| FundPurchases.CheckedMainCovers | scripts/c2/libfund.ts:540-619 | a purchase of the main swap whose quote and receipt pass covers what is missing |
| FundPurchases.GrownNeedBuysAgain | scripts/c2/fund.ts:1177-1218 | a main swap that is done buys again as soon as the need exceeds the balance |
| FundPurchases.LateLandingBuysTwice | scripts/c2/libfund.ts:736-759 | a process that dies with its purchase in flight, and a next one that looks before it lands: two are sent |
| FundPurchases.RefusedQuoteForgets | scripts/c2/fund.ts:1085-1096 | a refused quote overwrites the pending record, so the purchase lands unseen and the next attempt buys again |
| FundPurchases.TestRunsStage | scripts/c2/fund.ts:1166-1175 | a run of the test stage steps through exactly the events those results quantify over |
| DeployBuffers.InspectDeployBuffer | scripts/c2/lib.ts:453-487 | the two loops find the written prefix and the first contradiction; resumable exactly for a tag-1 buffer without one |
| DeployBuffers.TagIsLittleEndian | scripts/c2/lib.ts:457-458 | the tag is the little-endian numeral of the first four bytes; a buffer's starts 1, 0, 0, 0 |
| DeployBuffers.PayloadIs | scripts/c2/lib.ts:463-464 | the ELF begins behind 37 bytes of header |
| DeployBuffers.ResumableIffInterrupted | scripts/c2/lib.ts:444-452 | a payload is resumable exactly when some partial writes of this ELF into a zeroed buffer produce it |
| DeployBuffers.PartialWritesResume | scripts/c2/lib.ts:444-452 | any partial write keeps a buffer resumable and never lowers `written` |
| DeployBuffers.FullWriteFinishes | scripts/c2/lib.ts:444-452 | writing the whole ELF into a resumable buffer that holds it leaves the ELF and zeros |
| DeployBuffers.MatchesIff | scripts/c2/lib.ts:490-498 | the deployed-program check accepts the ELF and zeros at any capacity, and nothing else where the hash tells the ELF apart |

## Left out

- RPC reads, signing, confirmation, Jupiter and their retries: a transaction lands, lands unseen or is
  dropped; one read of a launch is atomic, where the client reads several accounts, and never fails.
- runCrankAll and listLaunches: they repeat the crank per launch; compute budgets and instruction encoding.
- The account and signer constraints of the program (addresses, owners, mint extensions) and those checks
  of create_launch that do not bear on amounts. Config, mint authority, decimals and metadata checks of
  register_pool are one flag each, pool created and name reserved.
- DBC and DAMM v2 internals: a trade only moves fees and base tokens, completing a curve owes the partner
  fee formula and any surplus, a frozen transit stops a split harvest even of nothing, and Meteora is
  assumed not to be upgraded into something else.
- The quote issuer's permanent delegate, which can take tokens out of any account, the vault included.
- Events, the floor view, and the lamports and rent of the program's accounts.
- Solana's u64 amounts are `nat` with the invariant that both totals fit u64; the program's checked
  arithmetic therefore never overflows in a valid state.
- resolve and single in scripts/gen-reserved-confusables.py: the resolved map is a parameter, because it
  depends on Unicode data and on the order of visits; the table rows are not literals.
- The parsing of the metadata account around the name and symbol fields; core::str::from_utf8 and the
  browser's TextDecoder are taken to decode as the Unicode Standard, section 3.9, and the WHATWG Encoding
  Standard, section 4.1, say.
- Amounts.ToRational: JavaScript numbers enter through their shortest decimal text, which is a parameter;
  Amounts.UiToRaw checks a multiplier exactly instead of through a float, so multipliers beyond the range
  of a double are not told apart.
- Floating-point display and USD figures, and the closed form for the first start price: the loop that
  refines it takes any first price and any supply function. getBaseTokenForSwap and
  getConcentratedMigrationBaseAmount enter only through that supply.
- FundPlans.BuildFundPlan: the USD price of a swap is an abstract cost function; the USD columns are not modelled.
- FundRuns.ExecuteConserves: one fee per kind of step and no outside transfers into the funded wallets; a landed
  transaction that the script did not see is a crash after it.
- FundPurchases.TestBuysOnceIff: one stage at a time, and nothing but its purchases moves the balance (the
  main swap is reached only when the test swap is done, so a late test purchase exists only where two were
  sent); the price deviation of a route is a parameter.
- FundPurchases.MainBuysOnceIff: the same; the need is one number, as transfers lower need and balance together.
- FundResume.ResumeIsExact: a transfer in flight at a restart, which FundTransfers.SentOnceIff treats for one wallet.
- FundCompletion.InterruptedFundingCompletes: the same.
- Guards, flag parsing, reports, preflight tables, user interface, test code.
