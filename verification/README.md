# Anastasis: backup policies, truth uploads and key recovery

A model, with proofs, of the algorithmic core of the Anastasis key backup and recovery system and of
the wallet's coin simulation. `dafny verify dfyconfig.toml` checks everything.

- **Policy builder** (`Wrappers`, `Sequences`, `Products`, `Subsets`, `Costs`, `Providers`, `Stacks`,
  `EquivalenceExample`, `PolicyBuilder`, `PolicyChoice`). The class `Builder` follows the reducer's `struct PolicyBuilder`:
  recursion over method subsets, recursion over provider assignments, and a bounded search over stacks
  of policy maps, all updating shared fields. The specification is a fold over lexicographic products
  and says which assignments are kept, what a stack costs, and which stack is chosen.
- **Secret sharing and recovery** (`Crypto`, `Backup`, `PolicyStore`, `Recovery`, `EndToEnd`, `Suspend`).
  The recovery document, the provider replies of secret sharing, the recovery operation as a state
  machine over all orders of events, and suspending and resuming it.
- **Truth uploads** (`Upload`, `KeyPhases`, `UploadRun`, `UploadProtocol`, `PaymentRounds`, `SharedTruths`,
  `UploadExamples`). What happens to one (provider, method) key is an automaton over the policy slots that
  use it; the class `Context` follows the reducer's `struct UploadContext`. Whole calls, rounds of upload
  and payment, and the truths handed to sharing build on them.
- **The whole way** (`Journey`). From the reported policies, over their upload, to the recovered secret.
- **Two small cores** (`Aadhar`, `CoinSim`). The Verhoeff check of Aadhar numbers, and greedy change with
  the balance of a simulated wallet.

Amounts are natural numbers with an opaque currency. Encryption, key derivation and hashing are terms
that open with the right key only. JSON and compression are the values they carry. Doubly linked lists
are sequences with the head first, so an insertion prepends. Callbacks are steps taken in any order.
Random draws are arbitrary values of the range drawn from.

Where the code does not do what its comments or its purpose suggest, the model follows the code:

- `compare_costs` counts a currency that one list lacks against the list that lacks it.
  `Costs.NowhereDearer` says exactly when a list that is nowhere dearer loses all the same
  (`Costs.MissingCurrencyLoses`).
- Its verdicts are transitive for one currency only (`Costs.TransitiveIff`). With two currencies strict
  verdicts cannot run in a circle (`Costs.StrictlyTransitiveIff`), but the search can already settle on a
  stack to which one it evaluated is preferred (`PolicyChoice.SearchKeepsDearer`). With three they can run in
  a circle (`Costs.VerdictsCanCycle`). Optimality is therefore stated for one currency; for any currencies
  `PolicyChoice.SearchKeepsWinner` and `PolicyChoice.ChosenRejectsLater` say which stack is kept.
- `equiv_provider` does not count how often an offer is listed, while the fee adds every matching offer. A
  provider that lists an offer twice can make the builder drop the cheapest assignment
  (`EquivalenceExample.CheapestIsDropped`); without such providers what is dropped costs the same
  (`Providers.CoveredCostsTheSame`).
- The penalty counter and `best_duplicates` are 32 bits wide, and `UINT_MAX` also marks an empty best. The
  wrap-around is modelled.
- A missing salt found by `add_truth_object` is reported without cancelling the uploads begun before. Their
  replies then continue the operation a second time (`UploadExamples.SaltFaultContinuesTwice`);
  `UploadProtocol.CallContinuations` says exactly when.
- `upload` means to refuse policies without methods but checks the wrong array. It uploads their truths and
  fails when it shares (`UploadExamples.EmptyPolicyNotShared`).
- `upload` begins a new random truth for a key when the first slot of that key has none, although a later slot
  may carry one that awaits payment. Each slot still hands its own truth to sharing, so a truth that is not
  stored can be handed on; in a payment round the new truth is serialized over the old one
  (`UploadExamples.BareSlotFirst`). A reply of conflicting truth leads to sharing as well
  (`UploadExamples.ConflictStillShares`). `SharedTruths.OnRecordIff` says exactly when all truths handed on are
  known to be stored, and `KeyPhases.KeepsTruthIff` when a key keeps its serialized truth.
- The escrow list checks a truth against earlier policies only, so a policy that repeats a truth lists it
  twice (`Backup.RepeatedTruthListedTwice`). `Backup.EscrowUnique` gives the exact condition.
- A loaded document links a UUID to the first challenge that has it, a resumed recovery to the last.
  `Suspend.RepeatedTruthRelinked` shows links that change, and `Suspend.LinksKept` gives the exact condition for
  them to survive.
- The spending loops of the simulation go on after the cost has become zero. They then exchange coins for
  themselves, which costs operations and changes no balance (`CoinSim.Simulation.SpendAndRefresh`).
- Greedy change is optimal up to 8191, beyond the first denomination of 8096. It fails first at 8192
  (`CoinSim.GreedyFailsAt8192`); `CoinSim.FewestIff` gives the exact condition for every amount.

`hide` statements in proofs only keep definitions away from the solver where they are not needed.

## Model

| member | source | states |
|---|---|---|
| Costs.CostList.AddCost | anastasis-g12e1f2b/src/reducer/anastasis_api_backup_redux.c:76-102 | Adding a fee leaves the list as the specification function `Added` says: the amount goes to the entry of its currency, or to a new entry at the head |
| Costs.CostList.AddCosts | anastasis-g12e1f2b/src/reducer/anastasis_api_backup_redux.c:111-122 | Adds every entry of another cost list, in order |
| Costs.TotalAdded | anastasis-g12e1f2b/src/reducer/anastasis_api_backup_redux.c:76-102 | One entry per currency is kept, and the total of each currency grows by the fee if it is in that currency, else not at all |
| Costs.TotalAddedAll | anastasis-g12e1f2b/src/reducer/anastasis_api_backup_redux.c:111-122 | Adding cost lists is pointwise addition per currency and keeps one entry per currency |
| Costs.EntryVote | anastasis-g12e1f2b/src/reducer/anastasis_api_backup_redux.c:1380-1407 | The vote of one entry against a list: 1 if cheaper or if the other list lacks the currency, -1 if dearer, 0 if equal |
| Costs.HasCurrency | anastasis-g12e1f2b/src/reducer/anastasis_api_backup_redux.c:1360-1373 | Whether a list charges in a currency at all |
| Costs.CompareCosts | anastasis-g12e1f2b/src/reducer/anastasis_api_backup_redux.c:1350-1411 | The verdict of the loops is the sign of a vote over currencies, defined on maps without loops or list order |
| Costs.RankingAntisymmetric | anastasis-g12e1f2b/src/reducer/anastasis_api_backup_redux.c:1343-1411 | Swapping the two lists negates the verdict |
| Costs.OrderIrrelevant | anastasis-g12e1f2b/src/reducer/anastasis_api_backup_redux.c:1343-1411 | Lists with the same entries in any order give the same map, hence the same verdict |
| Costs.OneCurrency | anastasis-g12e1f2b/src/reducer/anastasis_api_backup_redux.c:1343-1411 | With one common currency the verdict is the order of the two amounts |
| Costs.NowhereDearer | anastasis-g12e1f2b/src/reducer/anastasis_api_backup_redux.c:1356-1407 | A list that is nowhere dearer does not lose if and only if it is cheaper in as many common currencies as the other has to itself |
| Costs.MissingCurrencyLoses | anastasis-g12e1f2b/src/reducer/anastasis_api_backup_redux.c:1356-1407 | In particular a list equal to another but for charging nothing in some further currencies always loses |
| Costs.VerdictsCanCycle | anastasis-g12e1f2b/src/reducer/anastasis_api_backup_redux.c:1343-1411 | With three currencies there are lists a, b, c of which each is preferred to the next and c to a |
| Costs.TransitiveIff | anastasis-g12e1f2b/src/reducer/anastasis_api_backup_redux.c:1343-1411 | Verdicts among lists in the same currencies are transitive if and only if there is one currency at most |
| Costs.StrictlyTransitiveIff | anastasis-g12e1f2b/src/reducer/anastasis_api_backup_redux.c:1343-1411 | Strict verdicts among them are transitive, and so cannot run in a circle, if and only if there are two currencies at most |
| Subsets.CombosMembers | anastasis-g12e1f2b/src/reducer/anastasis_api_backup_redux.c:1245-1275 | The enumeration holds every strictly increasing index sequence of length r below n and nothing else |
| Subsets.CombosSorted | anastasis-g12e1f2b/src/reducer/anastasis_api_backup_redux.c:1245-1275 | It is strictly increasing in dictionary order |
| Subsets.CombosNoDuplicates | anastasis-g12e1f2b/src/reducer/anastasis_api_backup_redux.c:1245-1275 | No subset is tried twice |
| Subsets.CombosCount | anastasis-g12e1f2b/src/reducer/anastasis_api_backup_redux.c:1245-1275 | There are n!/(r!(n-r)!) subsets |
| Subsets.ReqMethods | anastasis-g12e1f2b/src/reducer/anastasis_api_backup_redux.c:1731-1773 | A policy asks for the smallest majority of the methods, but for four at most |
| Subsets.Threshold | anastasis-g12e1f2b/src/reducer/anastasis_api_backup_redux.c:1731-1773 | Some enumerated subset lies within a set of solved methods if and only if that set has at least r elements |
| Subsets.OverlapUpToSeven | anastasis-g12e1f2b/src/reducer/anastasis_api_backup_redux.c:1731-1773 | Any two enumerated subsets share a method if and only if there are at most seven methods |
| Products.ProductMembers | anastasis-g12e1f2b/src/reducer/anastasis_api_backup_redux.c:1153-1203 | The lexicographic product of choice lists holds exactly the picks of one element per list |
| Products.ProductNoDuplicates | anastasis-g12e1f2b/src/reducer/anastasis_api_backup_redux.c:1153-1203 | Choice lists without repetition give a product without repetition |
| Products.SpreadAt | anastasis-g12e1f2b/src/reducer/anastasis_api_backup_redux.c:1544-1567 | Position i*n+k of the product is the i-th head followed by the k-th of the n tails |
| Products.ProductLength | anastasis-g12e1f2b/src/reducer/anastasis_api_backup_redux.c:1544-1567 | The product has as many elements as the product of the list lengths |
| PolicyBuilder.Builder.EquivProvider | anastasis-g12e1f2b/src/reducer/anastasis_api_backup_redux.c:764-902 | Two providers are equivalent if and only if both are configured, their upload fees are equal, they have equally many offers, and every offer of the first is found at the second |
| PolicyBuilder.Builder.SlotEntry | anastasis-g12e1f2b/src/reducer/anastasis_api_backup_redux.c:922-1041 | A provider serves a method if and only if it is up, configured and has a matching offer that fits its size limit; the entry then carries the fee |
| Providers.FeeTotal | anastasis-g12e1f2b/src/reducer/anastasis_api_backup_redux.c:994-1028 | The fee of a slot is, per currency, the sum over all matching offers of usage fee plus upload fee, with one entry per currency |
| PolicyBuilder.Builder.CountProviders | anastasis-g12e1f2b/src/reducer/anastasis_api_backup_redux.c:1043-1060 | The nested loops count the different providers of a selection |
| PolicyBuilder.Builder.HasEquivalent | anastasis-g12e1f2b/src/reducer/anastasis_api_backup_redux.c:1095-1122 | Whether some kept map is slot by slot equivalent to the new one |
| PolicyBuilder.Builder.EvalProviderSelection | anastasis-g12e1f2b/src/reducer/anastasis_api_backup_redux.c:912-1139 | Diversity and kept maps change by one `KeepStep`: worse or infeasible selections change nothing, more diverse ones drop all kept maps, and for the first policy an equivalent of a kept map is not added |
| PolicyBuilder.Builder.ProviderCandidate | anastasis-g12e1f2b/src/reducer/anastasis_api_backup_redux.c:1153-1203 | The recursion evaluates, after the choices already made, every assignment of active providers to the slots left, in lexicographic order and each once; the fields hold what is to be kept of all evaluated so far |
| Providers.KeptAreMostDiverse | anastasis-g12e1f2b/src/reducer/anastasis_api_backup_redux.c:912-1203 | No map is kept twice, and each is a feasible assignment of active providers of maximal diversity |
| Providers.MostDiverseAreKept | anastasis-g12e1f2b/src/reducer/anastasis_api_backup_redux.c:912-1203 | Every feasible assignment of maximal diversity is kept, except that the first policy may keep one that is slot by slot equivalent instead |
| Providers.FirstPolicyIrredundant | anastasis-g12e1f2b/src/reducer/anastasis_api_backup_redux.c:1085-1122 | For the first policy no kept map is equivalent to one found after it |
| Providers.EquivalentFees | anastasis-g12e1f2b/src/reducer/anastasis_api_backup_redux.c:757-902 | If no provider lists an offer twice, equivalent providers that both serve a method charge the same for it in every currency |
| Providers.CoveredCostsTheSame | anastasis-g12e1f2b/src/reducer/anastasis_api_backup_redux.c:1085-1122 | Then an assignment left out as equivalent costs the same, slot by slot, as the map that covers it |
| EquivalenceExample.EquivalentWhere | anastasis-g12e1f2b/src/reducer/anastasis_api_backup_redux.c:757-902 | A provider that lists its offer twice is equivalent to providers that are not equivalent to it |
| EquivalenceExample.KeptMaps | anastasis-g12e1f2b/src/reducer/anastasis_api_backup_redux.c:912-1139 | With that provider and two others the first policy keeps two of the six most diverse assignments |
| EquivalenceExample.CheapestIsDropped | anastasis-g12e1f2b/src/reducer/anastasis_api_backup_redux.c:1085-1122 | Both charge six, while an equally diverse assignment that charges four is dropped |
| Providers.NonEmptyIffServed | anastasis-g12e1f2b/src/reducer/anastasis_api_backup_redux.c:1043-1138 | A policy has a map if and only if each of its methods is offered, at a fitting size, by some active provider |
| Providers.AssignmentIff | anastasis-g12e1f2b/src/reducer/anastasis_api_backup_redux.c:1153-1203 | A selection is an assignment for the methods if and only if each slot names the URL of a provider that can hold its method, said in the fields of the provider |
| Providers.ServedIff | anastasis-g12e1f2b/src/reducer/anastasis_api_backup_redux.c:1177-1198 | A method is served if and only if some provider is enabled, up, configured, offers its kind and has room for its challenge |
| PolicyBuilder.Builder.GoWith | anastasis-g12e1f2b/src/reducer/anastasis_api_backup_redux.c:1212-1234 | The new policy at the head of the list holds the chosen methods and exactly the maps to keep for them |
| PolicyBuilder.Builder.MethodCandidate | anastasis-g12e1f2b/src/reducer/anastasis_api_backup_redux.c:1245-1275 | `go_with` is called on the completions of the methods chosen so far, in the order of the recursion |
| PolicyBuilder.CompletionsAreCombos | anastasis-g12e1f2b/src/reducer/anastasis_api_backup_redux.c:1245-1275 | Those completions are the chosen methods followed by each increasing sequence of later methods, in dictionary order |
| PolicyBuilder.Builder.BuildPolicies | anastasis-g12e1f2b/src/reducer/anastasis_api_backup_redux.c:1245-1275 | All subsets are tried in dictionary order, and the policy list answers them newest first, that is in reverse order |
| PolicyBuilder.PoliciesShaped | anastasis-g12e1f2b/src/reducer/anastasis_api_backup_redux.c:1212-1275 | Every policy has as many different challenges as methods are required, and every map one entry per challenge |
| PolicyBuilder.NoEmptyPolicy | anastasis-g12e1f2b/src/reducer/anastasis_api_backup_redux.c:1576-1648 | No policy is without a map if and only if every method is served by an active provider |
| PolicyBuilder.Builder.CheckDuplicates | anastasis-g12e1f2b/src/reducer/anastasis_api_backup_redux.c:1445-1480 | The inner loops find whether an earlier policy uses the challenge at the same provider, and add to the 32-bit counter one for each earlier slot with the challenge at another provider |
| PolicyBuilder.Builder.AssessStack | anastasis-g12e1f2b/src/reducer/anastasis_api_backup_redux.c:1422-1492 | Cost list and 32-bit penalty counter of the stack are those of the specification |
| Stacks.StackCostIsSumOverPairs | anastasis-g12e1f2b/src/reducer/anastasis_api_backup_redux.c:1435-1492 | In each currency the cost of a stack is the sum of fees over the set of distinct (challenge, provider) pairs it uses |
| Stacks.StackClashesCounted | anastasis-g12e1f2b/src/reducer/anastasis_api_backup_redux.c:1435-1492 | The penalty, before wrap-around, is the number of pairs of slots of different policies with the same challenge at different providers |
| PolicyBuilder.Builder.EvaluateMap | anastasis-g12e1f2b/src/reducer/anastasis_api_backup_redux.c:1422-1532 | The saved best changes by one `EvalStep`: kept if cheaper, or as cheap with fewer duplicates, and replaced otherwise |
| PolicyBuilder.Builder.FindBestMap | anastasis-g12e1f2b/src/reducer/anastasis_api_backup_redux.c:1544-1567 | The stacks evaluated are the old ones plus the leaves below the current choice, cut off at MAX_EVALUATIONS in all; the saved best is that of all evaluated stacks in order |
| PolicyBuilder.LeavesAreStacks | anastasis-g12e1f2b/src/reducer/anastasis_api_backup_redux.c:1544-1567 | The leaves below a choice are that choice followed by the lexicographic product of the remaining map lists |
| PolicyBuilder.FirstEvaluationSets | anastasis-g12e1f2b/src/reducer/anastasis_api_backup_redux.c:1495-1532 | With the counter at UINT_MAX the first evaluation replaces whatever the best fields held, so uninitialised memory never reaches the result |
| PolicyBuilder.SearchSettles | anastasis-g12e1f2b/src/reducer/anastasis_api_backup_redux.c:1576-1606 | With no policy empty the search result is one of the evaluated stacks, whatever the best fields held before |
| PolicyBuilder.StacksExist | anastasis-g12e1f2b/src/reducer/anastasis_api_backup_redux.c:1544-1567 | Some stack is evaluated if and only if no policy is without a map |
| PolicyBuilder.Builder.Search | anastasis-g12e1f2b/src/reducer/anastasis_api_backup_redux.c:1576-1606 | For any policies the search evaluates exactly the bounded list of stacks and saves the best of them; it saves nothing if and only if some policy has no map |
| PolicyBuilder.Builder.SelectPolicies | anastasis-g12e1f2b/src/reducer/anastasis_api_backup_redux.c:1576-1648 | Reports, policy by policy, the methods with the providers of the stack found by the search |
| PolicyBuilder.DoneAuthentication | anastasis-g12e1f2b/src/reducer/anastasis_api_backup_redux.c:1697-1876 | No method and a single method are each refused with their own hint; otherwise the reported policies are those of the search over all policies built |
| PolicyChoice.ReportedPolicies | anastasis-g12e1f2b/src/reducer/anastasis_api_backup_redux.c:1576-1648 | One reported policy per subset, last subset first; each names, for each of its methods, an active provider that offers it at a fitting size |
| PolicyChoice.ReportedCanHold | anastasis-g12e1f2b/src/reducer/anastasis_api_backup_redux.c:922-1041 | Every reported use names the URL of some provider that is enabled, answered with status 200, is configured, offers the kind of the method, and whose size limit in MiB covers the challenge and 1024 bytes more |
| PolicyChoice.ThresholdRecovery | anastasis-g12e1f2b/src/reducer/anastasis_api_backup_redux.c:1731-1773 | A set of solved methods satisfies some reported policy if and only if it has at least the required number of elements |
| PolicyChoice.PoliciesOverlap | anastasis-g12e1f2b/src/reducer/anastasis_api_backup_redux.c:1731-1773 | Any two reported policies share a method if and only if there are at most seven methods |
| PolicyChoice.CandidateCost | anastasis-g12e1f2b/src/reducer/anastasis_api_backup_redux.c:1435-1492 | The cost of any combination of kept maps is the sum of the slot fees of its distinct (method, provider) pairs |
| PolicyChoice.CheapestStack | anastasis-g12e1f2b/src/reducer/anastasis_api_backup_redux.c:1350-1648 | With fees in one currency the stack chosen is minimal in (total cost, 32-bit duplicates counter) among all evaluated, the last such in evaluation order, and minimal among all combinations of kept maps if there are at most MAX_EVALUATIONS |
| PolicyChoice.SearchKeepsDearer | anastasis-g12e1f2b/src/reducer/anastasis_api_backup_redux.c:1350-1567 | Two currencies already mislead the search: of three maps it settles on one to which an evaluated one is preferred |
| PolicyChoice.SearchKeepsWinner | anastasis-g12e1f2b/src/reducer/anastasis_api_backup_redux.c:1494-1532 | Whatever the currencies: a stack that loses, by the vote or on a tie by the 32-bit counter, against none evaluated before it, and against which all evaluated after it lose, is the one chosen |
| PolicyChoice.ChosenRejectsLater | anastasis-g12e1f2b/src/reducer/anastasis_api_backup_redux.c:1494-1532 | Whatever the currencies: all stacks evaluated after the one chosen lose against it |
| PolicyChoice.ClearWinnerIsChosen | anastasis-g12e1f2b/src/reducer/anastasis_api_backup_redux.c:1494-1532 | Whatever the currencies: a stack that the vote prefers to every other evaluated one is chosen |
| PolicyChoice.FewMethodsFit | anastasis-g12e1f2b/src/reducer/anastasis_api_backup_redux.c:1435-1492 | Up to 33 methods the penalty counter of no evaluated stack reaches the value that marks an empty best or wraps around, whatever the providers |
| PolicyChoice.EvaluationCount | anastasis-g12e1f2b/src/reducer/anastasis_api_backup_redux.c:1544-1567 | The number of evaluations is the smaller of MAX_EVALUATIONS and the product of the map list lengths; the stacks evaluated are a prefix of the list of all combinations |
| Backup.PolicyCreate | anastasis-g12e1f2b/src/lib/anastasis_backup.c:481-507 | The policy key is derived from the key shares in the order of the truths |
| Backup.IsUnique | anastasis-g12e1f2b/src/lib/anastasis_backup.c:791-814 | Whether no earlier policy uses the truth |
| Backup.BuildDocument | anastasis-g12e1f2b/src/lib/anastasis_backup.c:751-836 | The recovery document holds the UUIDs of each policy in order, the master key sealed with each policy key, and the escrow list |
| Backup.EscrowListsUsed | anastasis-g12e1f2b/src/lib/anastasis_backup.c:786-836 | The escrow list names a UUID if and only if some policy uses that truth |
| Backup.EscrowUnique | anastasis-g12e1f2b/src/lib/anastasis_backup.c:786-836 | It names each once if and only if no policy repeats a truth that it is the first to use |
| Backup.RepeatedTruthListedTwice | anastasis-g12e1f2b/src/lib/anastasis_backup.c:786-836 | A first policy with the same truth twice gets two escrow entries |
| Backup.EscrowDescribesTruths | anastasis-g12e1f2b/src/lib/anastasis_backup.c:786-836 | Each escrow entry carries the URL, type, salts and truth key of a truth of the policies |
| PolicyStore.SecretShare.PolicyStoreCb | anastasis-g12e1f2b/src/lib/anastasis_backup.c:616-713 | One reply changes the operation by one `Step`: failure at once, waiting while others are pending, the summary at the last |
| PolicyStore.SecretShare.Summarize | anastasis-g12e1f2b/src/lib/anastasis_backup.c:671-711 | The running offsets fill the payment requests, or if there are none the successes, in provider order |
| PolicyStore.SummaryInAnyOrder | anastasis-g12e1f2b/src/lib/anastasis_backup.c:616-713 | If no provider fails, the result callback fires at the last reply only, with a summary that does not depend on the order of the replies |
| PolicyStore.FirstFailureReported | anastasis-g12e1f2b/src/lib/anastasis_backup.c:624-661 | The first failing reply is reported, and nothing before or after it |
| PolicyStore.FailsIff | anastasis-g12e1f2b/src/lib/anastasis_backup.c:624-665 | A reply fails if and only if its status is an HTTP, client or server error, or it reports a success for another upload than the one sent |
| PolicyStore.ExactlyOneResult | anastasis-g12e1f2b/src/lib/anastasis_backup.c:616-713 | Whatever the replies and their order, the result callback fires exactly once |
| PolicyStore.SummaryPartitions | anastasis-g12e1f2b/src/lib/anastasis_backup.c:678-708 | Payment requests and successes together name every provider as often as it was asked, none lost or repeated |
| PolicyStore.PositionsAscend | anastasis-g12e1f2b/src/lib/anastasis_backup.c:678-696 | The positions of the providers that do, or do not, ask for payment are listed in ascending order and completely |
| PolicyStore.PaymentsInOrder | anastasis-g12e1f2b/src/lib/anastasis_backup.c:678-696 | The payment requests are those of exactly the providers that ask for payment, in provider order, each with its own secret |
| PolicyStore.StoredInOrder | anastasis-g12e1f2b/src/lib/anastasis_backup.c:678-696 | The successes are those of exactly the providers that do not ask for payment, in provider order |
| PolicyStore.SuccessIffNoPayment | anastasis-g12e1f2b/src/lib/anastasis_backup.c:678-708 | Success is reported if and only if no provider asks for payment |
| PolicyStore.PaymentsOfReplies | anastasis-g12e1f2b/src/lib/anastasis_backup.c:616-708 | If no reply fails and some ask for payment, the result of any run lists each of these, in provider order, with the request and the secret of its own reply |
| PolicyStore.SuccessesOfReplies | anastasis-g12e1f2b/src/lib/anastasis_backup.c:616-708 | If all replies are successes, the result of any run lists every provider with the version and the expiration of its own reply |
| Recovery.Operation.PolicyLookupCb | anastasis-g12e1f2b/src/lib/anastasis_recovery.c:580-926 | Each kind of reply gives its status, and a document is loaded, with its version, if and only if all its UUIDs can be linked |
| Recovery.Operation.LoadDocument | anastasis-g12e1f2b/src/lib/anastasis_recovery.c:756-926 | Version, secret name and sealed secret are taken over, the challenges follow the escrow list, and the policies link to them in the order of their UUIDs |
| Recovery.Operation.LinkFirst | anastasis-g12e1f2b/src/lib/anastasis_recovery.c:874-920 | Each UUID is linked to the first challenge that has it, or the document is refused |
| Recovery.Operation.ChallengeStart | anastasis-g12e1f2b/src/lib/anastasis_recovery.c:473-508 | A lookup starts if and only if the challenge is neither solved nor being looked up |
| Recovery.Operation.ChallengeAnswer | anastasis-g12e1f2b/src/lib/anastasis_recovery.c:511-534 | The answer is remembered, also when no lookup is started |
| Recovery.Operation.ChallengeAbort | anastasis-g12e1f2b/src/lib/anastasis_recovery.c:558-570 | Only the lookup in flight is dropped |
| Recovery.Operation.FindComplete | anastasis-g12e1f2b/src/lib/anastasis_recovery.c:397-428 | The nested loops find the first policy all of whose challenges are solved, if any |
| Recovery.Operation.CollectShares | anastasis-g12e1f2b/src/lib/anastasis_recovery.c:439-442 | The search over the solved challenges collects the key shares in the order of the policy, not of solving |
| Recovery.Operation.KeyshareLookupCb | anastasis-g12e1f2b/src/lib/anastasis_recovery.c:246-463 | One reply changes the operation by one `Reply` step of the state machine, and the feedback is the status of the reply |
| Recovery.NextKeepsInv | anastasis-g12e1f2b/src/lib/anastasis_recovery.c:246-570 | Every step keeps the solved list free of duplicates, equal to the set of challenges flagged solved, and solved challenges are not in flight |
| Recovery.SolvedFits | anastasis-g12e1f2b/src/lib/anastasis_recovery.c:383-391 | The solved list never outgrows the array of challenges, and has room while a challenge is unsolved |
| Recovery.NextWaitsOrDelivers | anastasis-g12e1f2b/src/lib/anastasis_recovery.c:375-463 | The secret callback fires at the very step after which some policy is complete, with the first such policy, and never again |
| Recovery.StartLooksUp | anastasis-g12e1f2b/src/lib/anastasis_recovery.c:473-508 | A lookup begins exactly if the challenge is neither solved nor being looked up, and no other challenge changes |
| Recovery.AnswerLooksUp | anastasis-g12e1f2b/src/lib/anastasis_recovery.c:511-534 | The answer is stored in any case, an idle challenge is being looked up afterwards, and no other challenge changes |
| Recovery.AbortFrees | anastasis-g12e1f2b/src/lib/anastasis_recovery.c:558-570 | Afterwards the challenge is not being looked up; nothing else changes |
| Recovery.FailedReplyFrees | anastasis-g12e1f2b/src/lib/anastasis_recovery.c:246-373 | After a reply without key share the recovery goes on, the challenge is idle and unsolved and can be started and answered again, and nothing else changes |
| Recovery.ShareReplySolves | anastasis-g12e1f2b/src/lib/anastasis_recovery.c:375-395 | After a key share the challenge is solved with that share and idle, and listed last among the solved ones |
| Recovery.FeedbackTells | anastasis-g12e1f2b/src/lib/anastasis_recovery.c:255-371 | Each kind of reply has a feedback of its own, but for the failures of client and server, which share one |
| Recovery.LookupFailureTells | anastasis-g12e1f2b/src/lib/anastasis_recovery.c:583-640 | Each way the lookup of the recovery document fails has a status of its own |
| EndToEnd.DocumentLoads | anastasis-g12e1f2b/src/lib/anastasis_recovery.c:760-926 | The document built from any policies can be linked, its UUIDs in order, and carries name, version and sealed secret; if the policies agree on the truth a UUID names, the challenge linked for a truth has its URL, type, instructions, truth key, truth salt and provider salt |
| EndToEnd.LoadedAsListed | anastasis-g12e1f2b/src/lib/anastasis_recovery.c:779-827 | A challenge loaded from the escrow entry of a truth has all its data and is neither solved nor answered |
| EndToEnd.UploadedShareOpens | anastasis-g12e1f2b/src/lib/anastasis_recovery.c:375-395 | In every sound state the key share that was sealed for a truth, with its provider salt and the answer given, opens for the challenge linked for it |
| EndToEnd.CompletePolicyOpens | anastasis-g12e1f2b/src/lib/anastasis_recovery.c:429-463 | The shares of a complete policy rebuild its policy key and open the shared secret |
| EndToEnd.OnlyRightSharesOpen | anastasis-g12e1f2b/src/lib/anastasis_recovery.c:429-463 | The shares held for a policy open the secret if and only if they are those backed up |
| EndToEnd.ResumeKeepsSound | anastasis-g12e1f2b/src/lib/anastasis_recovery.c:985-1432 | A suspended and resumed recovery still has the links and shares that lead to the shared secret |
| EndToEnd.RunInvariant | anastasis-g12e1f2b/src/lib/anastasis_recovery.c:246-570 | In every state of every run, suspensions included, links, shares and solved list are sound, and the operation is waiting or has delivered the shared secret |
| EndToEnd.RecoversSharedSecret | anastasis-g12e1f2b/src/lib/anastasis_recovery.c:375-463 | For any policies over truths, any order of replies and any number of suspensions: the shared secret is delivered at most once, and exactly when some policy is completely solved |
| EndToEnd.SolvedAreAnswered | anastasis-g12e1f2b/src/lib/anastasis_recovery.c:375-395 | A challenge is solved if and only if it had a successful reply while the recovery was running, before or after any suspension |
| Suspend.Serialize | anastasis-g12e1f2b/src/lib/anastasis_recovery.c:985-1082 | The saved form holds the challenges and the UUIDs of each policy in order, whatever the state |
| Suspend.LinkLast | anastasis-g12e1f2b/src/lib/anastasis_recovery.c:1245-1283 | Each UUID is linked to the last challenge that has it |
| Suspend.ParseCsArray | anastasis-g12e1f2b/src/lib/anastasis_recovery.c:1092-1172 | Challenges with a key share are solved, in the order of the array |
| Suspend.ParseDpsArray | anastasis-g12e1f2b/src/lib/anastasis_recovery.c:1182-1288 | The policies are restored if and only if every UUID is found |
| Suspend.Deserialize | anastasis-g12e1f2b/src/lib/anastasis_recovery.c:1307-1432 | The new operation is in the saved state, or the parse error is reported; without policies the document is looked up again |
| Suspend.ResumeRestores | anastasis-g12e1f2b/src/lib/anastasis_recovery.c:985-1288 | If every link leads to the last challenge with its UUID, then challenges, links, solved set and key shares survive; only the order of solving may differ |
| Suspend.ChallengesRestored | anastasis-g12e1f2b/src/lib/anastasis_recovery.c:985-1172 | Challenges, key shares and the solved set survive a suspension from any state, whatever becomes of the links |
| Suspend.LoadedLinksLastIff | anastasis-g12e1f2b/src/lib/anastasis_recovery.c:985-1288 | The links of a freshly loaded document all survive a suspension if and only if no policy repeats a truth that it is the first to use |
| Suspend.LinksKept | anastasis-g12e1f2b/src/lib/anastasis_recovery.c:1182-1288 | Every UUID is found again, and all links survive if and only if every linked challenge is the last one with its UUID |
| Suspend.DistinctLinksLast | anastasis-g12e1f2b/src/lib/anastasis_recovery.c:1182-1288 | With unique UUIDs every link leads to the last challenge with its UUID |
| Suspend.RepeatedTruthRelinked | anastasis-g12e1f2b/src/lib/anastasis_recovery.c:1182-1288 | At a policy with the same truth twice both links lead to challenge 0 after loading and to challenge 1 after a resume |
| Suspend.AlikeNext | anastasis-g12e1f2b/src/lib/anastasis_recovery.c:246-463 | States that differ in the order of solving only stay so under every event, and enable the same replies |
| Suspend.ResumeInvisible | anastasis-g12e1f2b/src/lib/anastasis_recovery.c:985-1288 | Under the same condition every continuation of the resumed recovery completes the same policy at the same step with the same outcome as the original |
| UploadRun.Context.Find | anastasis-g12e1f2b/src/reducer/anastasis_api_backup_redux.c:3636-3650 | The entry of a (provider, method) key, or none |
| UploadRun.Context.AddTruthObject | anastasis-g12e1f2b/src/reducer/anastasis_api_backup_redux.c:3624-3776 | A slot with a serialized truth changes entries and in-flight count as the phase automaton of its key says, or fails for want of a salt |
| UploadRun.Context.CheckTruthUpload | anastasis-g12e1f2b/src/reducer/anastasis_api_backup_redux.c:3795-3975 | A slot without a truth joins the entry of its key or starts an upload, or fails for want of a salt |
| UploadRun.Context.RegisterAll | anastasis-g12e1f2b/src/reducer/anastasis_api_backup_redux.c:4076-4190 | The double loop ends at the first fault; without one the entries account for all slots and the counter is the number of uploads in flight, and after one the uploads begun are cancelled unless add_truth_object found the fault |
| UploadRun.Context.Upload | anastasis-g12e1f2b/src/reducer/anastasis_api_backup_redux.c:3987-4196 | What the call leaves behind: a told bad state with everything cancelled, a told bad state with the uploads still running, uploads to wait for, or sharing begun at once |
| Upload.ProcessedTracks | anastasis-g12e1f2b/src/reducer/anastasis_api_backup_redux.c:3624-3975 | One more slot keeps one entry per key, with the references and the phase of all its slots so far |
| UploadProtocol.Bookkeeping | anastasis-g12e1f2b/src/reducer/anastasis_api_backup_redux.c:3624-4191 | After the double loop entries are unique per key, every policy slot is referenced by exactly one entry and once, and each entry has either an upload in flight or a truth at hand |
| UploadProtocol.UploadIsReady | anastasis-g12e1f2b/src/reducer/anastasis_api_backup_redux.c:4079-4190 | Whenever the call leaves the operation running, after a fault too, entries refer to slots of their key only and no error or payment request is recorded |
| UploadRun.Context.LookupTruth | anastasis-g12e1f2b/src/reducer/anastasis_api_backup_redux.c:3348-3405 | The truth of a slot is the one serialized in it, else that of the entry of its key, if it is at hand |
| UploadRun.Context.ShareSecret | anastasis-g12e1f2b/src/reducer/anastasis_api_backup_redux.c:3179-3491 | The truths of all slots, policy by policy, are handed on; a missing truth, an empty policy, no policy provider or one without a salt is a state error |
| UploadRun.Context.SerializeTruth | anastasis-g12e1f2b/src/reducer/anastasis_api_backup_redux.c:2982-3021 | Every slot referred to by an entry with a truth at hand carries it with its upload status afterwards; other slots are untouched |
| UploadRun.Context.CheckUploadFinished | anastasis-g12e1f2b/src/reducer/anastasis_api_backup_redux.c:3539-3573 | Goes on by the first error, or by nothing while uploads are in flight, or by payment, or by sharing |
| UploadRun.Context.RequestTruthPayment | anastasis-g12e1f2b/src/reducer/anastasis_api_backup_redux.c:3500-3530 | Truths are serialized and all payment requests are listed in entry order |
| UploadRun.Context.TruthUploadCb | anastasis-g12e1f2b/src/reducer/anastasis_api_backup_redux.c:3586-3603 | One reply changes the operation by one `Step` |
| UploadProtocol.FirstErrorEnds | anastasis-g12e1f2b/src/reducer/anastasis_api_backup_redux.c:3539-3603 | The first reply with an error ends the operation with that error, and the policies are left as they were |
| UploadProtocol.GoesOnAtLastReply | anastasis-g12e1f2b/src/reducer/anastasis_api_backup_redux.c:3539-3603 | Without errors the operation goes on at the last reply, once, in a way that does not depend on the order of the replies |
| UploadProtocol.PaymentIffAsked | anastasis-g12e1f2b/src/reducer/anastasis_api_backup_redux.c:3500-3603 | Payment is due if and only if some reply asks for it |
| UploadProtocol.AskingAscends | anastasis-g12e1f2b/src/reducer/anastasis_api_backup_redux.c:3508-3518 | The uploads answered with a request for payment are listed in the order of the entries, each once, and none is left out |
| UploadProtocol.AllPaymentsTold | anastasis-g12e1f2b/src/reducer/anastasis_api_backup_redux.c:3500-3530 | Over any run without errors in which payment is due, the caller is told the payment requests of exactly the uploads that ask, in the order of the entries |
| UploadProtocol.ExactlyOneContinuation | anastasis-g12e1f2b/src/reducer/anastasis_api_backup_redux.c:3539-3603 | Once replies are awaited, whatever they are and whatever their order, the caller is told exactly once more how it goes on |
| UploadProtocol.SharingOnlyWhenAllDone | anastasis-g12e1f2b/src/reducer/anastasis_api_backup_redux.c:3539-3603 | After a fault-free start sharing begins if and only if every upload has replied, none with an error and none asking for payment, no policy is without methods, and there are policy providers, each with a salt |
| UploadProtocol.CallSharesIff | anastasis-g12e1f2b/src/reducer/anastasis_api_backup_redux.c:3987-4196 | The same from the arguments of the call: a fault-free call ends in sharing if and only if no reply has an error or asks for payment, no policy is without methods, and there are policy providers, each with a salt |
| UploadProtocol.FaultIff | anastasis-g12e1f2b/src/reducer/anastasis_api_backup_redux.c:3624-3975 | A slot is faulty if and only if its method does not exist, or an upload must begin for it and the salt of its provider is missing |
| UploadProtocol.FaultOutcome | anastasis-g12e1f2b/src/reducer/anastasis_api_backup_redux.c:3987-4196 | A call with a fault leaves the policies as they were and tells the caller a bad state; it stays live if and only if the first fault is a missing salt for a serialized truth, and uploads are then in flight if and only if some were begun before |
| UploadProtocol.UploadedCases | anastasis-g12e1f2b/src/reducer/anastasis_api_backup_redux.c:3987-4196 | When the call returns it has told the caller how it goes on, or uploads are running, or both, and both exactly if it was orphaned |
| UploadProtocol.CallContinuations | anastasis-g12e1f2b/src/reducer/anastasis_api_backup_redux.c:3987-4196 | Over a call and all its replies the caller is told exactly once how it goes on if and only if the first fault is not a missing salt for a serialized truth with an upload running; else it is told twice |
| UploadExamples.SaltFaultContinuesTwice | anastasis-g12e1f2b/src/reducer/anastasis_api_backup_redux.c:3721-3728 | A missing salt behind a running upload: the bad state is reported, and the reply to that upload starts sharing with a truth nobody stored |
| UploadExamples.EmptyPolicyNotShared | anastasis-g12e1f2b/src/reducer/anastasis_api_backup_redux.c:4086-4095 | A policy without methods passes the check, which looks at the policies; its truths are uploaded and then the state is refused |
| UploadExamples.ConflictStillShares | anastasis-g12e1f2b/src/reducer/anastasis_api_backup_redux.c:3586-3603 | A reply of conflicting truth without error code leads to sharing of a truth not known to be stored |
| PaymentRounds.RoundKeepsTruth | anastasis-g12e1f2b/src/reducer/anastasis_api_backup_redux.c:2982-3021 | In one upload call a key whose truth is not about to be replaced keeps it, uploads it if it is not stored and nothing otherwise, and stays stored once it is |
| PaymentRounds.TruthSurvivesRounds | anastasis-g12e1f2b/src/reducer/anastasis_api_backup_redux.c:3624-3776 | Over any number of rounds such a key keeps its truth, so UUID, key and key share, and stored truths stay stored |
| PaymentRounds.StoredNeverUploadedAgain | anastasis-g12e1f2b/src/reducer/anastasis_api_backup_redux.c:3624-3776 | If the last serialized truth of such a key is stored, the key is not uploaded in any later round; whatever is uploaded for it is its truth |
| PaymentRounds.CallIsRound | anastasis-g12e1f2b/src/reducer/anastasis_api_backup_redux.c:3987-4196 | A fault-free call with all its replies leaves the policies unchanged or all serialized; a call with a fault leaves them unchanged unless it was orphaned |
| PaymentRounds.SerializedKeeps | anastasis-g12e1f2b/src/reducer/anastasis_api_backup_redux.c:2982-3021 | Whatever the slots carried before, after a serialization no key is about to have its truth replaced |
| PaymentRounds.SlotKeepsIff | anastasis-g12e1f2b/src/reducer/anastasis_api_backup_redux.c:2982-3021 | A serialization leaves a slot its truth if and only if that is the truth its key uses |
| SharedTruths.OnRecordIff | anastasis-g12e1f2b/src/reducer/anastasis_api_backup_redux.c:3348-3405 | Every truth handed to sharing was serialized as stored or uploaded in this call with success, if and only if every upload succeeded (or its truth was stored before) and no truth waiting to be stored is replaced for its key |
| SharedTruths.SharedOnRecordIff | anastasis-g12e1f2b/src/reducer/anastasis_api_backup_redux.c:3987-4196 | The same for the truths that a fault-free call, with any replies in any order, does hand to sharing |
| SharedTruths.NoneReplacedIff | anastasis-g12e1f2b/src/reducer/anastasis_api_backup_redux.c:3624-3975 | Where the serialized truths of each key agree, none is replaced if and only if for each the first slot of the key carries it or some slot carries it as stored |
| Journey.HandedConsistent | anastasis-g12e1f2b/src/reducer/anastasis_api_backup_redux.c:3179-3491 | If serialized and new truths differ in their UUIDs, the policies made of what a call hands on agree on the truth each UUID names |
| Journey.FirstUploadHandsOn | anastasis-g12e1f2b/src/reducer/anastasis_api_backup_redux.c:3179-3491 | A first upload of the reported policies that ends in sharing hands on one new truth per method and provider |
| Journey.BackupSound | anastasis-g12e1f2b/src/lib/anastasis_backup.c:481-507 | Policies made of those truths satisfy what recovery relies on, and repeat no truth |
| Journey.EnoughMethods | anastasis-g12e1f2b/src/lib/anastasis_recovery.c:375-463 | In every sound state of the recovery of the reported policies: with as many methods solved as a policy asks for, at every provider used with them, the backed-up secret has been delivered; while the solved challenges belong to fewer methods nothing has |
| Journey.EnoughMethodsDeliver | anastasis-g12e1f2b/src/lib/anastasis_recovery.c:375-463 | The same over every run, with any replies and suspensions, from the reported policies to recovery: once as many methods are solved as a policy asks for, at every provider used with them, the backed-up secret is delivered; while the solved challenges belong to fewer methods nothing is |
| UploadExamples.BareSlotFirst | anastasis-g12e1f2b/src/reducer/anastasis_api_backup_redux.c:3624-3975 | A slot without truth before one that awaits payment: a new truth is uploaded; on success both truths are handed on, and if it has to be paid first it is serialized in place of the old one |
| KeyPhases.UploadedIff | anastasis-g12e1f2b/src/reducer/anastasis_api_backup_redux.c:3624-3975 | A key is uploaded if and only if it occurs and its last serialized truth is missing or not stored |
| KeyPhases.KeepsTruthIff | anastasis-g12e1f2b/src/reducer/anastasis_api_backup_redux.c:3624-3975 | Where the serialized truths of a key agree, that truth is the one used for the key if the first slot carries it or some slot carries it as stored, and otherwise a new random truth is uploaded |
| Aadhar.RowOfM | anastasis-g12e1f2b/src/reducer/validation_IN_AADHAR.c:28-39 | The multiplication table is that of the dihedral group of order ten, given by its rotations and reflections |
| Aadhar.MulAssociative | anastasis-g12e1f2b/src/reducer/validation_IN_AADHAR.c:28-39 | The table is associative |
| Aadhar.MulCancels | anastasis-g12e1f2b/src/reducer/validation_IN_AADHAR.c:28-39 | Equal factors cancel on either side |
| Aadhar.NextRow | anastasis-g12e1f2b/src/reducer/validation_IN_AADHAR.c:45-54 | Each of the eight permutations is the previous one followed by one fixed permutation, and the eighth leads back to the first |
| Aadhar.SwapSafe | anastasis-g12e1f2b/src/reducer/validation_IN_AADHAR.c:28-54 | Two different digits never give the same product when they change places |
| Aadhar.SingleErrorDetected | anastasis-g12e1f2b/src/reducer/validation_IN_AADHAR.c:100-113 | Changing one digit of an accepted number of any length gives a rejected one |
| Aadhar.TranspositionDetected | anastasis-g12e1f2b/src/reducer/validation_IN_AADHAR.c:100-113 | Swapping two different adjacent digits of an accepted number of any length gives a rejected one |
| Aadhar.CheckDigit | anastasis-g12e1f2b/src/reducer/validation_IN_AADHAR.c:100-113 | Every digit sequence is completed to an accepted number by exactly one check digit |
| Aadhar.CheckDigitOfString | anastasis-g12e1f2b/src/reducer/validation_IN_AADHAR.c:64-113 | Every string of eleven digits, with white space between them or not, is completed to a valid number by exactly one digit |
| Aadhar.WhiteSpace | anastasis-g12e1f2b/src/reducer/validation_IN_AADHAR.c:64-113 | White space before or between the digits changes nothing, and none may follow the last |
| Aadhar.StringToVals | anastasis-g12e1f2b/src/reducer/validation_IN_AADHAR.c:64-88 | Accepts exactly the strings of twelve digits with white space before and between them only, and writes the digits in reverse |
| Aadhar.Check | anastasis-g12e1f2b/src/reducer/validation_IN_AADHAR.c:100-113 | Accepts a string if and only if it is well formed and its checksum over the reversed digits is zero |
| Aadhar.WrongDigitRejected | anastasis-g12e1f2b/src/reducer/validation_IN_AADHAR.c:64-113 | A valid number string with one digit replaced by another is not valid |
| Aadhar.SwappedDigitsRejected | anastasis-g12e1f2b/src/reducer/validation_IN_AADHAR.c:64-113 | A valid number string with two different neighbouring digits swapped, white space between them or not, is not valid |
| CoinSim.Simulation.Withdraw | wallet-core-ga35604fd/contrib/coinsim.ts:41-58 | The loops end, add exactly the amount, and fill the wallet as the greedy choice says |
| CoinSim.WithdrawnValue | wallet-core-ga35604fd/contrib/coinsim.ts:41-58 | The greedy withdrawal adds exactly the amount, in as many coins as the greedy choice takes |
| CoinSim.GreedyIsFewest | wallet-core-ga35604fd/contrib/coinsim.ts:22-58 | For every amount below 12288, so for all that is ever withdrawn: no wallet of that value has fewer coins than the greedy withdrawal if and only if the amount is below 8192 or has, less 8096, at most one bit more than less 8192; below 8096 the number of coins is the number of one bits |
| CoinSim.GreedyFailsAt8192 | wallet-core-ga35604fd/contrib/coinsim.ts:22-58 | At 8192 the greedy withdrawal takes three coins and some wallet of that value has fewer |
| CoinSim.FewestIff | wallet-core-ga35604fd/contrib/coinsim.ts:22-58 | For every amount: the greedy withdrawal takes the fewest coins if and only if no smaller number of coins of 8096 does better, the rest being counted in powers of two |
| CoinSim.GreedyCountIs | wallet-core-ga35604fd/contrib/coinsim.ts:41-58 | For every amount the greedy withdrawal takes one coin of 8096 for each such unit and one coin per one bit of the remainder |
| CoinSim.WithdrawOneCoin | wallet-core-ga35604fd/contrib/coinsim.ts:41-58 | Withdrawing the value of one coin pays out that very coin |
| CoinSim.Simulation.SpendAndRefresh | wallet-core-ga35604fd/contrib/coinsim.ts:76-84 | Takes the coin and withdraws the rest of it greedily, so lowers the wallet by exactly the cost; with cost zero, as the loops call it when they go on, the wallet is unchanged |
| CoinSim.Simulation.SpendSmallestFirst | wallet-core-ga35604fd/contrib/coinsim.ts:60-87 | Ends and lowers the wallet by exactly the cost, although the loop goes on after the cost has become zero; taken are the smallest coins in hand, no more than needed, and the change is withdrawn greedily |
| CoinSim.Simulation.SpendLargestFirst | wallet-core-ga35604fd/contrib/coinsim.ts:89-115 | Ends and lowers the wallet by exactly the cost; taken are the largest coins in hand, no more than needed, and the change is withdrawn greedily |
| CoinSim.Simulation.SpendHybrid | wallet-core-ga35604fd/contrib/coinsim.ts:117-139 | Ends and lowers the wallet by exactly the cost; if some coin covers it the smallest such coin alone is taken and the change withdrawn greedily, else the smallest coins in hand are |
| CoinSim.Simulation.CountBalance | wallet-core-ga35604fd/contrib/coinsim.ts:142-146 | Computes the value of the wallet |
| CoinSim.Simulation.Run | wallet-core-ga35604fd/contrib/coinsim.ts:141-167 | Over a whole run the balance is all withdrawn minus all spent, and "not enough balance" is never raised |

## Left out

- CheapestStack: states optimality for fees in one currency, because from two on verdicts are not transitive and `SearchKeepsDearer` shows what then happens (`SearchKeepsWinner` and `ChosenRejectsLater` say, for any currencies, which stack is chosen), and for evaluated stacks whose 32-bit penalty counter is not 2^32 - 1, because that value reads as an empty best.
- SearchKeepsWinner: like `ChosenRejectsLater` and `ClearWinnerIsChosen`, leaves out evaluated stacks with that counter value, for the same reason.
- FewMethodsFit: stops at 33 methods, because it lets each slot clash once with each earlier policy; setups beyond that may still satisfy `CountersFit`.
- SelectPolicies: demands that no policy is without a map, because the code reads uninitialised memory otherwise; `Search` and `StacksExist` show that it does exactly then, and `NoEmptyPolicy` which setups have such policies.
- DoneAuthentication: carries the same demand, and does not model the `policy_providers` part of the new state, which lists the providers with their URLs.
- KeyshareLookupCb: demands that a released key share decrypts with the answer given, because the code does not handle a failed decryption; a wrong answer is refused by the provider and is modelled.
- PolicyStoreCb: does not model a reply without details, which the code dereferences when it reports the failure; the reply for a conflicting truth, marked impossible for policies, is counted with the successes as in the code.
- ResumeInvisible: compares with the original recovery after its requests were aborted and its typed answers dropped, because neither is part of the saved state.
- StoredNeverUploadedAgain: is about keys whose truth is not about to be replaced, as after every serialization (`SerializedKeeps`); for all other keys `KeepsTruthIff` and `UploadedIff` say what happens instead. Rounds are calls that met no fault.
- CallContinuations: counts sharing as one continuation and does not follow the replies of the policy uploads it begins, which `ExactlyOneResult` covers.
- Run: takes the two random draws of a transaction as arbitrary values of their ranges and leaves out the averages printed at the end.
- AddTruthObject: takes it that an upload starts whenever the salt is known; the code counts an upload in flight even if `ANASTASIS_truth_upload3` returns none.
- Amount overflow, on which the code aborts.
- Malformed JSON, and the hints that go with such errors.
- Freeing memory and reference counts.
- Cancelling an upload or a secret sharing from outside, and callbacks that call back into the operation that invoked them.
- Starting an answer for a challenge that is already being looked up changes the answer the pending reply is opened with; `Openable` takes the answer as it is when the reply arrives.
- HTTP requests and the mapping of HTTP status codes to upload statuses, by which an upload that got no response counts as a success; merchants, payments, plugins, the database, and asynchronous retries.
- The other actions of the reducer: adding and deleting providers, methods, policies and challenges, expiration, and the table that dispatches actions by state.
- Other national identification numbers, TOTP and IBAN subjects: smaller arithmetic of the same kind.
- `secret_share_result_cb` beyond the serialization of truths when a policy upload asks for payment.
