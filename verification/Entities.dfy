/** The records the scheduler keeps: accounts, providers, and what they are addressed by. */
module Entities {
  import opened Prelude

  datatype ProviderKey = ProviderKey(kind: string, name: string)

  const STATUS_AVAILABLE := 1
  const STATUS_COOLING_DOWN := 2
  const STATUS_CIRCUIT_OPEN := 3
  const STATUS_INVALIDATED := 5
  const STATUS_BANNED := 6
  const STATUS_DISABLED := 7

  const PROVIDER_ACTIVE := 1
  const PROVIDER_DEGRADED := 3

  datatype SourceType = Requests | Tokens

  /** windowEnd is where the current window of the rule ends, as its opaque window calculation answers. */
  datatype UsageRule = UsageRule(sourceType: SourceType, total: real, valid: bool, windowEnd: Option<int>)

  datatype MetaValue = MetaInt(i: int) | MetaFloat(r: real) | MetaOther

  datatype Account = Account(
    id: string,
    providerType: string,
    providerName: string,
    credential: string,
    status: int,
    priority: int,
    tags: map<string, string>,
    metadata: map<string, MetaValue>,
    usageRules: seq<Option<UsageRule>>,
    cooldownUntil: Option<int>,
    circuitOpenUntil: Option<int>,
    createdAt: int,
    updatedAt: int,
    version: int)
  {
    function Key(): ProviderKey {
      ProviderKey(providerType, providerName)
    }

    predicate Available() {
      status == STATUS_AVAILABLE
    }
  }

  datatype Provider = Provider(
    providerType: string,
    providerName: string,
    status: int,
    priority: int,
    supportedModels: seq<string>,
    accountCount: int,
    availableAccountCount: int,
    createdAt: int,
    updatedAt: int)
  {
    function Key(): ProviderKey {
      ProviderKey(providerType, providerName)
    }

    predicate SupportsModel(model: string) {
      model in supportedModels
    }

    predicate IsActive() {
      status == PROVIDER_ACTIVE || status == PROVIDER_DEGRADED
    }
  }

  /** The codes are told apart; they are the numbers that filters and databases carry, 4 being an expired account. */
  lemma CodesDiffer()
    ensures [STATUS_AVAILABLE, STATUS_COOLING_DOWN, STATUS_CIRCUIT_OPEN] == [1, 2, 3]
    ensures [STATUS_INVALIDATED, STATUS_BANNED, STATUS_DISABLED] == [5, 6, 7]
    ensures PROVIDER_ACTIVE == 1 && PROVIDER_DEGRADED == 3
  {}
}
