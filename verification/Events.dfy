/** The events of the five `gally_core` modules, with the fields the indexer's handlers read. */
module Events {
  import opened Common
  import opened Decimal

  datatype Module = Protocol | Validator | Asset | Accumulator | Dispute

  /** The order in which the ingestion loop sweeps the modules. */
  const EVENT_MODULES: seq<Module> := [Protocol, Validator, Asset, Accumulator, Dispute]

  datatype GovernanceEvent =
    | ProtocolInitialized(configId: Text, admin: Text)
    | ProtocolParamChanged(name: Text, oldValue: u64, newValue: u64)
    | ProtocolTreasuryChanged(oldTreasury: Text, newTreasury: Text)
    | EmergencyStopTriggered(configId: Text)
    | ProtocolResumed(configId: Text)

  /** The issuer's own words, as bytes: the chain caps their length and nothing else. */
  datatype Metadata = Metadata(name: Text, ticker: Text, location: Text, entityName: Text)

  datatype AssetEvent =
    | AssetCreated(assetId: Text, entity: Text, metadata: Metadata, fundingGoal: u64, fundingDeadlineMs: u64,
                   trancheAmounts: seq<u64>, trancheDeadlinesMs: seq<u64>, trancheDescriptions: seq<Text>)
    | AssetVouched(assetId: Text, poolId: Text, validator: Text, coverage: u64)
    | AssetStateChanged(assetId: Text, oldState: byte, newState: byte)
    | AssetClosed(assetId: Text, reason: byte)
    | AssetOperational(assetId: Text, accumulatorId: Text)
    | RaiseFinalized(assetId: Text, accumulatorId: Text, totalShares: u64)
    | AssetCancelled(assetId: Text)
    | RaiseAborted(assetId: Text, raised: u64)
    | EntityDefaulted(assetId: Text, compensationPoolAfter: u64, compensationUnlockMs: u64, wrappingFrozen: bool)

  datatype ValidatorEvent =
    | ValidatorRegistered(poolId: Text, validator: Text, stake: u64, name: Text)
    | StakeAdded(poolId: Text, depositor: Text, amount: u64, stakeAfter: u64)
    | StakeWithdrawn(poolId: Text, validator: Text, amount: u64, stakeAfter: u64)
    | ValidatorStatusChanged(poolId: Text, oldStatus: byte, newStatus: byte, disputeId: Option<Text>)

  datatype PositionEvent =
    | CapitalContributed(assetId: Text, actor: Text, amount: u64, raisedAfter: u64)
    | SharesClaimed(assetId: Text, actor: Text, amount: u64, shareObjectId: Text)
    | SharesWrapped(assetId: Text, actor: Text, amount: u64, totalWrappedAfter: u64)
    | SharesUnwrapped(assetId: Text, actor: Text, amount: u64, shareObjectId: Text, totalWrappedAfter: u64)
    | YieldClaimed(assetId: Text, actor: Text, amount: u64, indexAtClaim: nat, rewardPoolAfter: u64)
    | ShareRedeemed(assetId: Text, actor: Text, amount: u64, totalMintedAfter: u64)
    | ContributionRefunded(assetId: Text, actor: Text, amount: u64)

  datatype YieldEvent =
    | RevenueDeposited(assetId: Text, gross: u64, fee: u64, investorPortion: u64, entityPortion: u64,
                       indexAfter: nat, unwrappedSupply: u64, rewardPoolAfter: u64, rolloverReserveAfter: u64)
    | RolloverSwept(assetId: Text, indexAfter: nat, unwrappedSupply: u64,
                    rewardPoolAfter: u64, rolloverReserveAfter: u64)
    | CompensationSwept(assetId: Text, indexAfter: nat, unwrappedSupply: u64, routedToRollover: bool,
                        rewardPoolAfter: u64, rolloverReserveAfter: u64,
                        compensationPoolAfter: u64, wrappingFrozen: bool)
    | DustSwept(assetId: Text, amount: u64, rewardPoolAfter: u64, rolloverReserveAfter: u64)

  datatype TrancheEvent =
    | MilestoneProofSubmitted(assetId: Text, tranche: u64, blobId: seq<byte>, sha256: seq<byte>)
    | MilestoneApproved(assetId: Text, tranche: u64, validator: Text, poolId: Text)
    | TrancheReleased(assetId: Text, tranche: u64, amount: u64, escrowAfter: u64)

  datatype DisputeEvent =
    | DisputeOpened(disputeId: Text, assetId: Text, targetPoolId: Text, challenger: Text, bond: u64, reason: Text)
    | JurorVoted(disputeId: Text, jurorPoolId: Text, guilty: bool, votesGuiltyAfter: u64, votesInnocentAfter: u64)
    | DisputeResolved(disputeId: Text, assetId: Text, verdict: byte, slashed: u64, bounty: u64,
                      compensationPoolAfter: u64, compensationUnlockMs: u64, wrappingFrozen: bool)
    | JurorRewardClaimed(disputeId: Text, jurorPoolId: Text, amount: u64)

  /** One feed per handler module; `actor` is the holder or contributor, `amount` also a share count. */
  datatype Payload =
    | GovernanceFeed(governance: GovernanceEvent)
    | AssetFeed(asset: AssetEvent)
    | ValidatorFeed(validator: ValidatorEvent)
    | PositionFeed(position: PositionEvent)
    | YieldFeed(yieldIndex: YieldEvent)
    | TrancheFeed(tranche: TrancheEvent)
    | DisputeFeed(dispute: DisputeEvent)
    // a type name the router does not know, and a known one whose body does not deserialize
    | Unknown(name: Text)
    | Malformed(name: Text)

  /** Sui's event identity, as it arrives: `eventSeq` is a string. */
  datatype EventId = EventId(txDigest: Text, eventSeq: Text)

  datatype Event = Event(id: EventId, mod: Module, timestampMs: Option<Text>, payload: Payload)

  /** The idempotency key `(tx_digest, event_seq)` of every append-only table. */
  datatype EventKey = EventKey(txDigest: Text, eventSeq: int)

  /** The sequence number is parsed as an i32, and an unparseable one becomes 0. */
  function KeyOf(e: Event): EventKey {
    EventKey(e.id.txDigest, ParseOrZero(e.id.eventSeq, I32_MIN, I32_MAX))
  }

  function TimestampOf(e: Event): int {
    match e.timestampMs
    case None => 0
    case Some(s) => ParseOrZero(s, I64_MIN, I64_MAX)
  }

  /** A timestamp that prints a signed 64-bit number is that number; any other, and a missing one, is 0. */
  lemma TimestampIff(e: Event, n: int)
    ensures e.timestampMs == None ==> TimestampOf(e) == 0
    ensures e.timestampMs == Some(Print(n)) ==>
              TimestampOf(e) == if -0x8000_0000_0000_0000 <= n <= 0x7FFF_FFFF_FFFF_FFFF then n else 0
    ensures e.timestampMs.Some? && (forall m :: Parse(e.timestampMs.value, I64_MIN, I64_MAX) != Some(m)) ==>
              TimestampOf(e) == 0
  {
    ParsePrint(n, I64_MIN, I64_MAX);
    hide Print, Parse;
    if e.timestampMs.Some? {
      var r := Parse(e.timestampMs.value, I64_MIN, I64_MAX);
      assert r.Some? ==> r == Some(r.value);
    }
  }

  /** The same for the sequence number, a signed 32-bit number, beside the transaction's digest. */
  lemma KeyIff(e: Event, n: int)
    ensures KeyOf(e).txDigest == e.id.txDigest
    ensures e.id.eventSeq == Print(n) ==>
              KeyOf(e).eventSeq == if -0x8000_0000 <= n <= 0x7FFF_FFFF then n else 0
  {
    ParsePrint(n, I32_MIN, I32_MAX);
    hide Print, Parse;
  }
}
