# A verified model of the diagnostic and surveillance core

The program watches building equipment through rules. A rule that keeps failing is *trapped* and
gives rise to a *case*: a dialogue in which the user evaluates evidence items, a Bayes-like count over
a knowledge base weighs the possible faults (hypotheses), and the user's verdict is taught back to the
knowledge base. This project models that core in Dafny and proves what holds of it in every run.

Three parts, each read in the order given:

* **The diagnostic engine.** `Nodes` and `Tallies` hold the data: a knowledge base node is a table of
  three rows (evidence false, true, unevaluated) by two columns (hypothesis false, true) at a (rule,
  hypothesis, evidence) triple. `OccurrenceTable` says what designing and teaching do to the tables.
  `GroupNames` is the parser of group names, `KnowBase` the knowledge base object with its in-memory
  index (the mimic), `KnowParts` the experts' design that drives it. `Bayes` is the counting, `Dialogue`
  the state machine of a case, `DialogueSafety`, `DialogueOutcomes`, `MostProbable`, `CaseCreation` and
  `Solutions` its theorems, `DialogueRuns` and `CertaintyRun` three runs from a design to a misled user,
  `KnowledgeLife` the interleaving of all dialogues with one knowledge base, and `Case` the case object,
  proved to do what the state machine says. What a dialogue comes to is also said without its steps, from
  the user's answers and the tables alone: `Diagnosis` (what is recorded and taught), `Standings` (which
  hypotheses are left, with what counts and probabilities), `Menus` (which answers lead where) and
  `Lessons` (what is taught while many cases are out).
* **The coupling of rules and cases.** `Rules` (modes of a rule), `KitLedger` (the books of a case kit,
  over every interleaving of events), `CaseKit` (the case kit object, whose creations and answers are
  proved to be events of that interleaving of dialogues too) and `RuleKit` (the rule kit object, which
  cycles its rules, springs the trap and asks for cases).
* **Surveillance.** `Binning`, `Rainfall` and `RainAnalog` (bins, logs and statistics of an analog
  value), `Trap` and `RainRuleKit` (the trap), `Snapshots` (the sets of snapshots it saves and destroys),
  `TrackingChart`, `ShewhartChart`, `Relations`, `SustainedFact`.

The file is a value: a set of groups and a map from triples to tables. An unordered map is walked in an
arbitrary order, so nothing below depends on one. `int` stands for the program's 64-bit counts and
`real` for its floats. What cannot be read from the source files - the clock, what a rule's tests say in
a cycle, the user's answers - comes in as parameters.

## What is false of the code, and exactly when it holds

Where a natural property fails, it is stated as an if-and-only-if with the condition a caller can check:

* A table starts consistent, and stays so for life, only for invertible logic or a single hypothesis
  (`OccurrenceTable.ConsistentForLifeIff`).
* After an answer the posteriors are probabilities unless its value is novel after other evidence
  (`MostProbable.PosteriorsAreProbabilitiesIff`, `Bayes.PosteriorIsDistributionIff`). With n items
  answered on a fresh design two hypotheses can stand at n times 50% each
  (`DialogueRuns.PosteriorsCanExceedOne`). They are kept in 16 bits, in which they are what they were
  unless the value is novel and some hypothesis has too many counts before it; with 8192 of them its
  819300% are reported as 100% (`CertaintyRun.TooMuchIsReportedCertain`).
* The solution offered stays one the case has not itself ruled out, until an answer rules it out at 100%
  without deciding for another (`Solutions.SolutionStaysAliveIff`, `MostProbable.SolutionIsAliveIff`);
  such a run is `DialogueRuns.SolutionCanDie`.
* A case cannot be created on a rule with a hypothesis or an item that cannot be looked up by its id: an
  association makes known its item and the one hypothesis it names, but writes tables for all hypotheses of
  the rule. So a hypothesis that no association of any rule names keeps cases on its rule from ever opening
  (`KnowledgeLife.NeverOpens`; a design that does is `KnowledgeLife.UnnamedHypoStopsCases`, and the same
  through the objects `KnowParts.CaseOnHalf`). Nor can one be created once the first hypothesis walked has
  too small a share of the priors, as the first look-up of a solution fails (`CaseCreation.CreatedIff`).
  Those are the only reasons, in every interleaving of dialogues (`KnowledgeLife.OpensInEveryRunIff`).
* A spent case says all its evidence is evaluated; after a last "do not know" it is not
  (`DialogueOutcomes.SpentMeansAllEvaluatedIff`).
* The index of the knowledge base lists exactly the tables on file; it lists exactly the groups on file
  too iff none of them is empty (`KnowBase.AgreeIff`). A pan that fails on a nameless id leaves an empty
  group iff the rule, or with the rule on file the hypothesis, has a name and no group yet
  (`KnowBase.KnowledgeBase.PanCursorToNodeAt`); every later pan into it then fails, as the call that is to
  create the group names what is there (`KnowBase.LeftInTheWay`; a pan to a thousandth item on a new file is
  `KnowBase.NamelessItemSpoilsHypo`). So an expert's design is built in full iff its ids have
  names and no empty group is in the way (`KnowBase.AllGoThroughIff`).
* The mean leaves out every cycle logged in bin 0 (`Rainfall.MeanIsOfWindowIff`), because the
  "not a number" of an integer type is 0; and statistics over a span of one cycle, documented as being
  the newest value, are of no cycle at all (`Rainfall.SpanOfOneIsEmpty`).
* The tracking chart's hunting warning needs a staleness no knob allows, or a warning level of zero
  (`TrackingChart.HuntsOnlyIf`). Going invalid, the chart goes back to the warnings of the cycle before
  its last valid one (`TrackingChart.GoingInvalidKeepsWarningsIff`), and whatever its settings some run
  loses one that way (`TrackingChart.WarningCanBeLost`). Its comment says it is applied only while the
  tracker is on; the code applies it regardless.
* The Shewhart chart is steady exactly at its margin, unless the margin is the zero its knob allows
  (`ShewhartChart.SteadyAtMarginIff`); it turns unsteady at the first trip, not when its count has come
  down to zero as its note says: as noted iff the margin is one at most
  (`ShewhartChart.TurnsUnsteadyAtFirstTrip`).
* The rule to lose its snapshots is documented as one in auto mode. It is, in whatever order the logs
  iterate, iff all rules are in auto mode, or one in auto mode was ever given snapshots and has no failure
  in the span and none outside auto mode was ever given any (`Trap.WipedIsAutoIff`; two rules of which one
  is idle are `Trap.WipedNeedNotBeAuto`).
* A rule keeps the number of a set of snapshots destroyed, and forgets that of one it saves another after.
  So a set superseded is never destroyed (`Snapshots.ForgottenIsKeptForGood`), and a rule whose set is gone
  is picked again for as long as it is the first stale one, and shields the sets of all others
  (`Snapshots.SpentRuleShieldsAll`).
* A fact that watches for either value claims one that has set in for good iff it was the one watched
  for, or the other was being claimed (`SustainedFact.LastingValueIsClaimedIff`): one true and false ever
  after is never claimed, nor is true again after a lapse.
* Rules put to idle stay out of auto mode iff no knob is turned off and no case that is out is closed
  (`KitLedger.StaysIdledIff`).

## Model

| member | source | states |
|---|---|---|
| OccurrenceTable.InitializationConsistentIff | libEA/knowBase.cpp:123-228 | one association leaves its evidence item's tables consistent (every hypothesis has the same occurrences, which are the sum of the true counts) iff its logic is invertible or the rule has one hypothesis |
| OccurrenceTable.BuildConsistentIff | libEA/knowParts.cpp:180-195 | after all associations of a rule are built in turn, an item is consistent iff the association that wrote it last is invertible, or there is one hypothesis |
| OccurrenceTable.TeachingKeepsDiscrepancy | libEA/case.cpp:913-941 | a verified case of any rule leaves the discrepancy of every hypothesis, item and row as it was |
| OccurrenceTable.ConsistentForLifeIff | libEA/knowBase.cpp:123-228 | any design followed by any interleaving of verified cases leaves an item consistent iff the association that designed it is invertible or the rule has one hypothesis |
| OccurrenceTable.TrueTotalForLife | libEA/case.cpp:913-941 | a node's true column adds up to one plus the verified cases its hypothesis explained: nothing lost, nothing counted twice |
| OccurrenceTable.TeachingsAreDividedAmongHypos | libEA/case.cpp:913-941 | every verified case of a rule is charged to exactly one of its hypotheses |
| GroupNames.NamesAreUnique | libEA/knowParts.cpp:32-45 | a name that is not empty determines its axis and its id |
| GroupNames.NameSpellsId | libEA/knowParts.cpp:32-45 | a name is an axis letter and three digits that spell the id, with no terminator inside |
| GroupNames.NameIsSpelledOut | libEA/knowParts.cpp:32-45 | rules, hypotheses and items numbered 1 to 999, and nothing else, have a name: their letter and three decimal digits, the highest first |
| GroupNames.SubgroupListing.constructor | libEA/HDF5Parts.cpp:274-308 | for up to 24 ids of 1 to 999, the names written to the buffer and read back by both loops are the names and the ids, in order, and the check on their number passes |
| GroupNames.SubgroupListing.IteratedOp | libEA/HDF5Parts.cpp:258-271 | one name is appended to the names held, and the terminator moved behind it |
| GroupNames.SubgroupListing.ExtractNamesFromChars | libEA/HDF5Parts.cpp:180-212 | terminates with exactly the names held |
| GroupNames.SubgroupListing.ExtractIdsFromChars | libEA/HDF5Parts.cpp:215-255 | terminates with exactly the ids held |
| GroupNames.SubgroupListing.CheckNamesAgainstIds | libEA/HDF5Parts.cpp:298-307 | the listing is kept if names and ids are as many, else disowned |
| KnowBase.KnowledgeBase.constructor | libEA/knowBase.cpp:30-47 | opening a file, empty groups or not, recovers an index of exactly its tables, which lists exactly its groups too iff none is empty; a knowledge base is new iff its file has no rule |
| KnowBase.KnowledgeBase.RebuildMimicFromFile | libEA/knowBase.cpp:68-116 | the index rebuilt from the file alone lists exactly the nodes on file, each once, and exactly the groups on file iff none is empty |
| KnowBase.AgreeIff | libEA/knowBase.cpp:68-116 | an index of exactly the tables on file lists exactly its rule and hypothesis groups iff each of them holds a table |
| KnowBase.KnowledgeBase.PanCursorToNodeAt | libEA/knowBase.cpp:231-316 | ends on the node asked for, with at most that node created empty; fails iff an id has no name or an empty group is in the way, and then the file has exactly the groups created before the call that failed, and index and file still agree on all groups iff the rule, or with it on file the hypothesis, did not lack a group it has a name for; index and tables match always, and an empty group in the way stays there for good |
| KnowBase.KnowledgeBase.PanAlongMimic | libEA/knowBase.cpp:241-266 | the cursor arrives iff the node is on file; the progress reported is how far there are groups with a table in them |
| KnowBase.KnowledgeBase.CreateMissing | libEA/knowBase.cpp:268-313 | succeeds iff all ids have names and no call names what is there; then the file gains exactly the missing groups and the node, else exactly the groups whose creation came before the call that failed |
| KnowBase.LeftInTheWay | libEA/knowBase.cpp:268-313 | the group a failing pan leaves empty makes every later pan to the same hypothesis fail |
| KnowBase.NamelessItemSpoilsHypo | libEA/knowBase.cpp:268-313 | on a new file a pan to item 1000 of a hypothesis leaves its rule and itself without a table, and no item can be designed there any more |
| KnowBase.AgreeAfterCreation | libEA/knowBase.cpp:268-313 | a node added to both file and index keeps them in agreement |
| KnowBase.DisagreeOnEmptyGroups | libEA/knowBase.cpp:268-313 | with the same tables, any group more or fewer on file breaks the agreement |
| KnowBase.KnowledgeBase.ReadCursorToImage | libEA/knowBase.cpp:509-528 | the image is the table under the cursor, or all zeros with no node there |
| KnowBase.KnowledgeBase.WriteImageToCursor | libEA/knowBase.cpp:531-550 | only the table under the cursor changes, to the image; agreement and empty groups stay as they are |
| KnowBase.KnowledgeBase.IncrementHypoTrueForEvid | libEA/knowBase.cpp:439-446 | one true count more in one row of the image, with the cursor on a node |
| KnowBase.KnowledgeBase.IncrementHypoFalseForEvid | libEA/knowBase.cpp:449-456 | one false count more in one row of the image, with the cursor on a node |
| KnowBase.KnowledgeBase.InitializeNodeAt | libEA/knowBase.cpp:123-228 | on a new knowledge base the tables of the item become those of the design at the named hypothesis and then each of the rule's in turn, up to the first whose pan fails; the tables of one left by an earlier session are not touched; in both, unless a pan fails, the named hypothesis and the item can be looked up from then on, and nothing else |
| KnowBase.GoesThroughIff | libEA/knowBase.cpp:123-228 | an association is written in full iff at none of the rule's hypotheses an id is nameless or an empty group is in the way |
| KnowBase.WrittenIff | libEA/knowBase.cpp:123-228 | the tables an association writes are none unless the pan to the hypothesis it names succeeds, and then that one and those of the others in turn before the first that fails |
| KnowBase.AllGoThroughIff | libEA/rule.cpp:326-333 | so are all associations of a rule iff that holds of every one of them before the first is written |
| KnowBase.BuiltInFull | libEA/rule.cpp:326-333 | a build no pan of which fails leaves the tables of the design |
| KnowBase.KnowledgeBase.InitializeCaseTallies | libEA/knowBase.cpp:322-403 | fails iff a hypothesis or item with a table on file for the rule cannot be looked up; else the tallies are exactly the hypotheses and evidence items with a table on file for the rule, once each; each prior is the sum of the true counts over its own items, and the sum is over all of them |
| KnowBase.HyposOfRuleAreOnFile | libEA/knowBase.cpp:322-403 | with index and file in agreement those are all hypothesis groups of the rule |
| KnowBase.EvidsMetAreOnFile | libEA/knowBase.cpp:322-403 | the items met on a walk over a rule's hypotheses are exactly those on file for the rule |
| KnowParts.Hypo.BuildRuleAndHypoIntoKbase | libEA/knowParts.cpp:180-195 | the associations of a hypothesis are built in turn, up to the first pan that fails, and those written in full make their hypothesis and items known; into a file left by an earlier session nothing is written and all are made known; the index stays in step with the tables whether or not a pan fails |
| KnowParts.RuleDesign.BuildRuleIntoKbase | libEA/rule.cpp:326-333 | all hypotheses of a rule are built with all their associations, each against all the rule's hypotheses, up to the first pan that fails, with the same of what can be looked up |
| KnowParts.LastInTurnDecides | libEA/rule.cpp:326-333 | an item several hypotheses of a rule are said to bear on is left as the last of them in turn has it |
| KnowParts.CaseOnHalf | libEA/knowBase.cpp:345-368 | with an item associated to the first of a rule's two hypotheses alone, the rule is built in full and the tallies of a case on it cannot be had |
| Bayes.EvidenceLeavesAHypothesis | libEA/case.cpp:420-512 | whatever the answer, some hypothesis stays alive, the divisor is at least one, the running count of live ones is no underestimate, and a likely one stands alone |
| Bayes.PosteriorIsDistributionIff | libEA/case.cpp:460-512 | the divisor is the sum of the counts it divides iff the value is not novel or nothing was accumulated before |
| Bayes.PerMilleBounds | libEA/case.cpp:567-569 | a truncated per-mille lies in 0 to 1000 and is the greatest not above its fraction, and the 16-bit conversion loses nothing |
| Bayes.PerMilleMonotone | libEA/case.cpp:596-598 | more of a count is never less of a probability |
| Bayes.PerMillesOfADistribution | libEA/case.cpp:567-598 | over their own sum, n counts give probabilities in range that add up to more than 1000 - n and no more than 1000 |
| Bayes.ScanFindsMaximalCount | libEA/case.cpp:571-615 | entered below 100%, the scan with its truncation, tie-break and cut-off ends on a hypothesis no other exceeds in count, and reports 100% iff a probability is past the cut-off |
| Bayes.ScanEndsOnFirstOfMost | libEA/case.cpp:571-615 | entered below 100% with a thousand hypotheses at most, the scan ends on the first walked of those with the most counts, and reports 100% iff one has 990 per mille of the whole |
| Bayes.FirstScanThrowsIff | libEA/case.cpp:571-584 | with no candidate yet, the look-up in the tie branch fails iff the first hypothesis walked has a probability of zero |
| CaseCreation.CreatedIff | libEA/case.cpp:241-258 | on fresh tallies a case comes into being iff all in them can be looked up and the first hypothesis walked has a per-mille of the sum of priors; it is then sound, its priors are probabilities, and its first solution has a maximal prior |
| CaseCreation.StartsFromFirstOfMost | libEA/case.cpp:241-258 | the first solution is the first walked of the hypotheses with the greatest prior, at 100% iff one has 990 per mille of their sum |
| CaseCreation.PriorOnDesign | libEA/knowBase.cpp:322-403 | on a grown knowledge base a prior is the number of evidence items times one plus the cases the hypothesis explained |
| CaseCreation.CreatedOnDesignIff | libEA/case.cpp:241-258 | with n hypotheses, T cases taught and t of them the first one's own, a new case comes into being iff all its hypotheses and items can be looked up and n + T is at most 1000 (1 + t) |
| DialogueSafety.EveryStepIsGood | libEA/case.cpp:1224-1271 | an answer is accepted iff it is an option of the current handler and the case is waiting; every answer leaves the case sound, and asks for destruction iff it leaves the case not waiting |
| DialogueSafety.StepIs | libEA/case.cpp:1224-1271 | a step is its handler's action, settled by the case only for a skipped item and for a case left idle |
| DialogueSafety.EvaluatedSound | libEA/case.cpp:425-428 | a definite answer gives the item up, which was not evaluated before, that answer as its status, and changes no other |
| DialogueSafety.UpdatedSound | libEA/case.cpp:550-615 | in a sound case no division is by zero and no look-up fails |
| DialogueSafety.DialogueTeachesAtMostOnce | libEA/case.cpp:913-941 | over any dialogue the knowledge base gains exactly the case's lesson if the case gets verified, and nothing otherwise; all other cells stay |
| DialogueSafety.DialogueKeepsTablesConsistent | libEA/case.cpp:1224-1271 | over any dialogue the tables of any rule are consistent afterwards iff they were before |
| DialogueOutcomes.StepEvaluates | libEA/case.cpp:712-767 | only a definite answer to the evidence query evaluates an item: the one up gets the answer as its status, and no other item changes |
| DialogueOutcomes.EachItemEvaluatedOnce | libEA/case.cpp:712-767 | over any dialogue an item once evaluated keeps its value, and items left plus definite answers are the items there were |
| DialogueOutcomes.SkippingRotatesTheQueue | libEA/case.cpp:1236-1241 | asking and skipping sends the front item to the back, losing none; the case is then spent iff it was the only one |
| DialogueOutcomes.SpentMeansAllEvaluatedIff | libEA/case.cpp:744-750 | when an answer spends a case, all its items are evaluated iff the answer was not "do not know" |
| DialogueOutcomes.SpentForGood | libEA/case.cpp:770-796 | a spent case stays spent and is never asked about evidence again |
| DialogueOutcomes.CanAlwaysBeClosed | libEA/case.cpp:689-1114 | from every state two answers at most close the case |
| DialogueOutcomes.EveryChoiceNamesAHypoIff | libEA/case.cpp:985-995 | every accepted choice names a hypothesis of the case iff the case has one |
| Menus.EveryHypoCanBeConfirmed | libEA/case.cpp:969-1114 | from every menu four answers verify the case with whichever of its hypotheses the user knows to be true |
| Menus.SolutionCanBeConfirmed | libEA/case.cpp:1019-1069 | from every menu two answers verify it with the solution offered, and the user is asked whether the fault is fixed |
| Menus.DoubtLeadsBack | libEA/case.cpp:994-1069 | not knowing about the solution, or about the others, leads back to the menu with nothing changed but the question |
| Menus.DenyingAllBusts | libEA/case.cpp:969-1034 | denying the solution and all others makes the case bust and ask to be deleted, and changes nothing else |
| Menus.FaultIsAskedFor | libEA/case.cpp:882-910 | once verified, a fixed fault closes the case; any other answer leads to a menu that leads back to the question or drops the case |
| Menus.AskedForEvidence | libEA/case.cpp:799-847 | asking for evidence puts up the item first in the queue, or with none left spends the case |
| Menus.AnswerLeadsOn | libEA/case.cpp:740-767 | after any answer about an item the case reports 100%, else goes on as long as the queue holds an item, and is spent iff it holds none |
| Menus.LeftAlone | libEA/case.cpp:1117-1184 | a case left alone is found at its menu again, or asks to be deleted if its rule has no diagnostics |
| MostProbable.PosteriorsAndMapp | libEA/case.cpp:550-615 | after a non-novel or a first answer the posteriors are probabilities, dead hypotheses have none, and - below 100% before - the solution has a maximal count |
| MostProbable.SolutionIsAliveIff | libEA/case.cpp:492-512 | the solution stays one the case has not ruled out, unless it stands at 100% and the answer rules it out deciding for no other |
| MostProbable.PosteriorsAreProbabilitiesIff | libEA/case.cpp:462-466 | for at most 24 hypotheses, the quotients are probabilities iff the value is not novel or nothing was accumulated before; the posteriors kept are those quotients iff the value is not novel or one count more of each hypothesis is below 32.768 times the hypotheses alive |
| Solutions.SolutionStaysAliveIff | libEA/case.cpp:479-512 | over every dialogue from creation until the case is verified, the solution is alive all along iff no answer rules it out at 100% without deciding for another |
| Solutions.SpentInfersNoMore | libEA/case.cpp:550-552 | over every dialogue a spent case keeps its solution and all its tallies until it is verified |
| Diagnosis.EveryStatusIsTheAnswer | libEA/case.cpp:425-430 | over every dialogue from creation, each item has as its status the definite answer given when it was up, and is unevaluated if there was none |
| Diagnosis.TaughtAsTheUserSaid | libEA/case.cpp:913-941 | over every dialogue from creation, the case is verified iff the user confirmed a hypothesis: the solution held before a "yes", or the one at the index chosen; then each node of that hypothesis gains one true count and each of the others one false count, in the row of the answer given to its item, and no other cell changes; without it none does |
| Standings.EveryStandingIsFound | libEA/case.cpp:420-512 | over every dialogue from creation until verification, the hypotheses alive are those the answers leave by the tables; each holds the sum of its true counts with the answers, or one where a value was novel to those then left, and a dead one none; each probability is that sum's truncated per-mille of their total, or of the number left after a novel value, where it fits 16 bits; and the count the bust test looks at is given exactly |
| Standings.StartsWithShares | libEA/case.cpp:567-569 | before any answer each probability is its prior's truncated per-mille of the sum of priors |
| Standings.SolutionStandsHighest | libEA/case.cpp:571-615 | after any dialogue that ends with a definite answer, below 100% before it and its value not novel or the first, the solution is the first walked of the hypotheses with the greatest such sum, at 100% iff one has 990 per mille of the whole |
| Standings.DesignSpeaksForNominal | libEA/knowBase.cpp:123-228 | on a design, the value an association speaks for decides for its hypothesis, and the opposite value rules that out iff the association is invertible and there are others, or there is just one other |
| DialogueRuns.SolutionCanDie | libEA/case.cpp:479-486 | a design that names all three hypotheses, 997 verified cases, a new case and one answer, after which the case offers at 100% the hypothesis it has ruled out |
| DialogueRuns.PosteriorsCanExceedOne | libEA/case.cpp:462-466 | for every n from 2 to 24, a design of n items for one hypothesis and one for each of two others, and answers to a new case that put those two at n times 50% each |
| CertaintyRun.CountsOverOne | libEA/case.cpp:462-466 | for every n, a design of two items for one hypothesis, n verified cases with the first true, and answers to a new case that leave the hypothesis n + 2 counts over one |
| CertaintyRun.TooMuchIsReportedCertain | libEA/case.cpp:567-569 | after 8191 such cases, those 8193 counts over one are kept as a probability of 1000 per mille |
| KnowledgeLife.TablesAreTaughtByLessons | libEA/case.cpp:913-941 | over every interleaving of cases opened and answered, every case stays sound and the tables are the first ones taught with the lessons of the cases verified, and nothing else |
| Lessons.EveryLessonIsWhatWasSaid | libEA/case.cpp:913-941 | at every event of every interleaving of cases, cell by cell: a confirmation teaches the hypothesis confirmed with the rows of what was answered in that case since it was opened, and any other event leaves every count alone |
| KnowledgeLife.RunKeepsCover | libEA/case.cpp:436-487 | whatever happens, a rule's tables stay those of its hypotheses by its items, and every lesson of the rule covers exactly these |
| KnowledgeLife.ConsistentInEveryRunIff | libEA/knowBase.cpp:123-228 | from the design of all rules on, in every interleaving of dialogues on any of them, an item's tables are consistent iff its association is invertible or the rule has one hypothesis |
| KnowledgeLife.OpensInEveryRunIff | libEA/case.cpp:241-258 | in every such interleaving, a new case comes into being iff some association, of whatever rule, names each of its rule's hypotheses and n + T is at most 1000 (1 + t), with T and t counted over the cases actually verified |
| KnowledgeLife.NeverOpens | libEA/knowBase.cpp:345-368 | a hypothesis no association names keeps every case on its rule, in every such interleaving, from coming into being |
| KnowledgeLife.UnnamedHypoStopsCases | libEA/knowBase.cpp:345-368 | two hypotheses, one item for the first: both have a table and a prior a case could begin on, and none can |
| KnowledgeLife.NextBeside | libEA/case.cpp:1450-1522 | an event among the cases of one kit is an event among those of all kits on the knowledge base |
| KnowledgeLife.SuppliedIsOnFile | libEA/knowBase.cpp:322-403 | the tallies the knowledge base object supplies are those the interleavings start cases from |
| Cases.Case.ApplyBayesGivenEvidUpIs | libEA/case.cpp:420-512 | tallies and registers become those of the evidence applied: what is alive has gained its true count on file with the value, or one if none alive was ever true with it, and what is dead has none; the item up gets its value, and the knowledge base gains no more than the nodes visited |
| Cases.Case.WeighEvidence | libEA/case.cpp:436-449 | the weight is the sum of the true counts at the value over the live hypotheses |
| Cases.Case.WeighHypos | libEA/case.cpp:458-512 | the walk that kills, crowns or weighs has the outcome of the evidence applied, up to its early exit: what is alive has gained its true count with the value, what is dead has none |
| Cases.Case.SpreadNovelEvidence | libEA/case.cpp:462-466 | a novel value gives one count to each live hypothesis and the register as many |
| Cases.Case.Crown | libEA/case.cpp:492-512 | one hypothesis is made the likely one at 100% and every open other is killed |
| Cases.Case.UpdateBayesProbabilities | libEA/case.cpp:550-615 | a spent or bust case is left alone; else the division by zero, the failed look-up, or the probabilities and the solution of the scan |
| Cases.Case.LearnFromUserVerifyingSoln | libEA/case.cpp:913-941 | one count at each node of the case, in the row of the item's status, true for the verified hypothesis and false for the others; statuses judged accordingly |
| Cases.Case.LearnFaultHasBeenFixed | libEA/case.cpp:953-966 | a fixed fault leaves every count as it was |
| Cases.Case.ActOnShouldThisCaseBeDeleted | libEA/case.cpp:689-709 | the object does what the dialogue step says |
| Cases.Case.ActOnEvaluatePromptedEvidenceQuery | libEA/case.cpp:712-767 | the object does what the dialogue step says, tables included; a definite answer becomes the status of the item up and of no other |
| Cases.Case.ActOnVerifyMenu | libEA/case.cpp:770-796 | the menu of a spent case, and likewise of one at 100% (lines 851-879) |
| Cases.Case.ActOnTopMenuCaseInProcess | libEA/case.cpp:799-847 | the next item leaves the queue for the prompt, or the case is spent |
| Cases.Case.ActOnCaseVerifiedAndLearned | libEA/case.cpp:882-910 | the object does what the dialogue step says |
| Cases.Case.ActOnIsMappHypoCorrect | libEA/case.cpp:1019-1069 | a "yes" verifies the case with the solution held before it and teaches that, else the dialogue goes on to the others or back to its menu |
| Cases.Case.ActOnIsAnyCaseHypoCorrect | libEA/case.cpp:969-1017 | none correct makes the case bust, one correct offers as many options as hypotheses |
| Cases.Case.ActOnUserVerifyCorrectHypoByChoosing | libEA/case.cpp:1100-1114 | the case is verified with the hypothesis at the index chosen, which is taught as the true one |
| Cases.Case.ActOnIsFaultFixed | libEA/case.cpp:1072-1097 | a fixed fault closes the case, any other answer offers the menu |
| Cases.Case.RegenGuiFieldsPerCaseAsIs | libEA/case.cpp:1117-1184 | the prompt is regenerated from the flags as they are |
| Cases.Case.CheckAnswerValidThenSet | libEA/case.cpp:1224-1271 | whatever empty groups are elsewhere on file, the case stays valid, state, tables and reply are those of one step of the dialogue, and no group is created |
| Cases.Case.Create | libEA/case.cpp:182-259 | fails on a look-up iff something on file for the rule was never named; else a case on what is on file for its rule begins exactly as the state machine says and takes the rule, or fails and leaves the rule alone |
| Cases.Case.Release | libEA/case.cpp:263-267 | a case that goes gives its rule back to auto mode |
| Rules.BindexTellsModeAndResult | libEA/rule.cpp:187-228 | the result logged is below "unavailable" and tells validity, mode and outcome apart; it is 0 iff a valid rule in auto mode fails |
| Rules.Rule.CycleAndSayBindex | libEA/rule.cpp:187-228 | the result is that of the rule's mode and its tests |
| Rules.Rule.SetCaseModeTo | libEA/rule.cpp:253-260 | the offsets stay exclusive |
| Rules.Rule.SetIdleModeTo | libEA/rule.cpp:263-273 | a rule in case mode is left alone, and the offsets stay exclusive |
| KitLedger.EachEventKeeps | libEA/case.cpp:1330-1522 | each event keeps the books |
| KitLedger.EveryRunKeeps | libEA/rule.cpp:713-754 | in every interleaving of trapped rules, idle knobs and answers, a rule is in case mode iff exactly one case refers to it, at most ten cases are out, the ranking lists each once from oldest to newest, and the view finds exactly those |
| KitLedger.TrappedTakesCaseIff | libEA/case.cpp:1450-1491 | a rule found failing gets a case, under a new key and with its time, iff it is in auto mode, fewer than ten are out and one can begin; never are more than ten out |
| KitLedger.KnobOfAll | libEA/rule.cpp:919-932 | the knob of all rules leaves none in auto mode, turned off none idle, and rules in case mode as they are |
| KitLedger.ShownByAge | libEA/case.cpp:1355-1372 | the case shown first has been out longest and the one shown last shortest |
| KitLedger.CasesAreConserved | libEA/case.cpp:1330-1491 | over every run, the cases created are those closed and those still out |
| KitLedger.CaseStaysUntilClosed | libEA/case.cpp:1495-1522 | over every run a case stays out, on its rule in case mode, until an answer closes it, and then never comes back |
| KitLedger.RankingWithout | libEA/case.cpp:1340-1341 | a key removed from the ranking leaves a ranking of the other cases |
| KitLedger.StaysIdledIff | libEA/rule.cpp:919-932 | over every run that starts with no rule in auto mode, none is ever again iff no idle knob is turned off and no case that is out is closed |
| KitLedger.ClosingOutlivesIdling | libEA/rule.cpp:253-273 | with the knobs left on, rules stay out of auto mode exactly until a case is closed |
| CaseKits.GuiKeys.GenerateNewGuiKey | libEA/guiShadow.cpp:607-607 | the key handed out is none of those handed out before |
| CaseKits.RankedByAge | libEA/case.cpp:1355-1372 | whatever the order of the walk, the ranking is every key once, by age |
| CaseKits.CaseKit.RegenCaseRankings | libEA/case.cpp:1355-1372 | the ranking is one of the cases owned |
| CaseKits.CaseKit.CreateAndOwnCase | libEA/case.cpp:1450-1491 | the books take exactly one case under a fresh key, whether or not there is anything to diagnose, or - ten out, or a case that cannot begin - nothing; it fails on a look-up iff fewer than ten are out and something on file for the rule was never named; with something to diagnose this is a case opened in the life of the knowledge base, else no change there; other kits' entries in the view stay |
| CaseKits.CaseKit.DestroyCase | libEA/case.cpp:1330-1343 | exactly the case with the key leaves owner, ranking and view, and its rule is in auto mode; an unknown key changes nothing |
| CaseKits.CaseKit.AnswerCasePromptUsingOptionIndex | libEA/case.cpp:1495-1522 | the case with the key takes one step of its dialogue and is destroyed iff the step asks for it; every other case keeps its state; this is a case answered in the life of the knowledge base, and creates no group there |
| RuleKits.RuleKit.Cycle | libEA/rule.cpp:713-754 | every rule is cycled and logged; the rule the trap catches, if it is due, is in auto mode, is alerted, and gets a case iff fewer than ten are out and one can begin; the knob of all rules is turned off unless one could not begin |
| RuleKits.RuleKit.CaughtIsAuto | libEA/rule.cpp:740-752 | whatever the logs, the rule caught is in auto mode, so the test for it before asking for a case never fails |
| RuleKits.RuleKit.IdleAllRulesNotInCaseMode | libEA/rule.cpp:919-932 | every rule of the kit goes to idle, or back to auto, except those in case mode |
| Binning.SpecifyBinParamsForAnalogValues | libEA/rainfall.cpp:177-199 | the labels run evenly from the least to the greatest value |
| Binning.WithinHalfABin | libEA/rainfall.cpp:336-372 | a value is outside the bins iff half a bin or more off both end labels; inside, its label is within half a bin of it |
| Binning.BinIsNearest | libEA/rainfall.cpp:336-372 | every value, outside or not, is logged under a nearest label |
| Rainfall.BinnedAverageIsDirect | libEA/rainfall.cpp:420-468 | the statistic computed from counts per bin is the average over the cycles of the window not logged in bin 0 |
| Rainfall.MeanIsOfWindowIff | libEA/rainfall.cpp:422-455 | the mean is that of all cycles of the window iff none is in bin 0, or all are and the first label is zero |
| Rainfall.VarianceHasAFloor | libEA/rainfall.cpp:473-479 | the variance is never below the square of half a bin width |
| Rainfall.StatisticsAreOfLabelsSeen | libEA/rainfall.cpp:420-479 | the mean is that of the labels of the cycles not in bin 0, the variance the mean of their squares less the square of that mean, or half a bin width squared where that is greater; with no such cycle they are zero and that least |
| Rainfall.SpanOfOneIsEmpty | libEA/rainfall.cpp:709-739 | statistics over a span of one cycle are of none, and give the newest value iff that is zero |
| Rainfall.LogIsNewestFirst | libEA/rainfall.cpp:374-396 | over any run of cycles the log holds the binned values newest first, the first value standing in for all before it |
| Rainfall.MeanTracksValues | libEA/rainfall.cpp:403-455 | over any run the mean is within half a bin width of the mean of the values, if those are inside the bins and none in bin 0 |
| RainAnalogs.ReadBindexLogIntoRainfall | libEA/rainfall.cpp:81-102 | the register shows the log, one true per row and none for bin 0, and keeps its other rows |
| RainAnalogs.CountBins | libEA/rainfall.cpp:425-434 | the columns' counts are those of the log, whatever the register holds elsewhere |
| RainAnalogs.RainAnalog.UpdateLogging | libEA/rainfall.cpp:330-399 | the value's bin enters the log in front, the first one fills it, and the state tells a valid value inside the bins |
| RainAnalogs.RainAnalog.MeanAndVariance | libEA/rainfall.cpp:436-479 | with some cycle of the window seen, the mean is that of the labels seen and the variance the mean of their squares less the square of that mean, or half a bin width squared where that is greater |
| RainAnalogs.RainAnalog.UpdateStatistics | libEA/rainfall.cpp:403-483 | every span in use has those statistics of its newest span less one cycles, independent of what the register held |
| RainAnalogs.RainAnalog.AddNewStatisticsUserSpanningCycles | libEA/rainfall.cpp:709-739 | a span in range is taken into use, the log growing by its oldest value if it must |
| Trap.TrapCatchesMostFailing | libEA/rainfall.cpp:1302-1376 | a rule is caught iff auto-mode failures in the span are more than three; it is in auto mode, none failed more often, and its failures times the number of rules reach the total |
| Trap.TrapWipesLeastFailing | libEA/rainfall.cpp:1360-1387 | the rule to lose its snapshots is never the one caught and has the fewest failures, never having had snapshots counting as one |
| Trap.TrapNamesFirstOf | libEA/rainfall.cpp:1302-1392 | the trap springs iff the failures logged of rules in auto mode are four or more as a set of rules and cycles; it names the first rule with the most of them, and the first with the least claim unless that is the same |
| Trap.StaleSnapshotsGoFirst | libEA/rainfall.cpp:1351-1387 | while a rule that was ever given snapshots has no failure in the span, the one to lose its snapshots is such a rule, whether or not it still has any |
| Trap.WipedIsAutoIff | libEA/rainfall.cpp:1360-1387 | when the trap catches something, the rule to lose its snapshots is in auto mode in whatever order the logs iterate iff all rules are, or some rule in auto mode was given snapshots and has no failure in the span and no rule outside it was ever given any |
| Trap.EnabledOncePerSpan | libEA/rainfall.cpp:1650-1671 | the trap is enabled on exactly the cycles that complete its span |
| Snapshots.SetsAreConserved | libEA/rainfall.cpp:1595-1671 | over every run of cycles, the sets saved are those still kept and those destroyed |
| Snapshots.KeptIff | libEA/rainfall.cpp:1595-1671 | after a cycle a set is kept iff it was before or is new, and is not the latest of the rule picked with no case out on it |
| Snapshots.RunKeepsOrder | libEA/rule.cpp:165-174 | over every run each set number is given once and to one rule |
| Snapshots.ForgottenIsKeptForGood | libEA/rainfall.cpp:1595-1671 | over every run, a set that is no rule's latest is never destroyed |
| Snapshots.SpentRuleShieldsAll | libEA/rainfall.cpp:1351-1387 | over every run in which a rule without its set gets no other and is the first stale one whenever the trap picks a rule, no set at all is destroyed |
| RainRuleKits.RainRuleKit.WriteFailsOnRulesToRainfall | libEA/rainfall.cpp:1246-1298 | each column shows one rule's failures, if it is in auto mode now |
| RainRuleKits.RainRuleKit.EnableTrapAndSayResult | libEA/rainfall.cpp:1302-1392 | the result depends on the logs, the modes and the snapshots only, whatever the register held |
| RainRuleKits.LogsHoldLatest | libEA/rainfall.cpp:1562-1600 | over any run of cycles a rule's log holds its latest results, the newest first, and behind them what it held before |
| RainRuleKits.FailingMeans | libEA/rule.cpp:187-228 | a set of snapshots is due for exactly the rules in auto mode whose data are valid, whose test applies and is not passed |
| RainRuleKits.RainRuleKit.CycleRulesInKitAndSayResults | libEA/rainfall.cpp:1562-1684 | every rule's result enters its log, each failure in auto mode gets a set of snapshots under a new number, and when the trap is due the rule caught is reported and the latest set of the rule picked is destroyed unless a case is out on it |
| TrackingChart.EveryRunIsBounded | libEA/chart.cpp:725-772 | over every run the registers stay within the warning level |
| TrackingChart.HuntsOnlyIf | libEA/chart.cpp:725-772 | some run gives the hunting warning iff the warning level is zero, or the registers never go stale and are not reset at every application |
| TrackingChart.WarningsExcludeOneAnotherIff | libEA/chart.cpp:760-769 | over every run at most one of rising, falling and hunting holds iff there is a warning level and, with neither staleness nor a reset at every application, the lag fraction is below one |
| TrackingChart.LastingExcursion | libEA/chart.cpp:725-772 | n applications without a reset, in each of which the distance past the top of the band times the minutes of a cycle is at least d, bring the rising register to at least the lesser of the warning level and n times d |
| TrackingChart.LastingExcursionBelow | libEA/chart.cpp:725-772 | n of them past the bottom bring the falling register to at most the greater of minus the warning level and minus n times d |
| TrackingChart.WithinBandNothingAccumulates | libEA/chart.cpp:730-757 | over every run of a fresh chart whose values stay within the half band of their guides, edges included, both registers are zero |
| TrackingChart.WithinBandNeverWarns | libEA/chart.cpp:725-804 | over every run of cycles, valid and not, such values in the valid ones are never warned of, at any warning level but zero |
| TrackingChart.OneApplication | libEA/chart.cpp:725-757 | from value, guide and settings alone: what each register gains past its edge of the band, loses short of it, and when both start over |
| TrackingChart.ApplicationsSinceReset | libEA/chart.cpp:730-731 | over every run the applications since the last reset are all of them modulo one more than the knob says |
| TrackingChart.StayingAboveIsWarnedOf | libEA/chart.cpp:725-772 | over every run from fresh that stays at least d above the band for enough cycles before a reset, the chart warns of rising and of nothing else |
| TrackingChart.StayingBelowIsWarnedOf | libEA/chart.cpp:725-772 | and below it of falling and of nothing else |
| TrackingChart.GoingInvalidKeepsWarningsIff | libEA/chart.cpp:775-804 | over every run, a chart gone invalid shows the warnings of the cycle before its last valid one, and so keeps its warnings iff that one changed none |
| TrackingChart.WarningCanBeLost | libEA/chart.cpp:775-804 | on every chart the first excursion past the band by enough is warned of, and the warning lost in the invalid cycle after it |
| TrackingChart.TrackingChart.ApplyChart | libEA/chart.cpp:725-772 | registers and warnings are those of one application: past its edge of the band a register gains the distance times the minutes of a cycle up to the warning level, else it loses its stale fraction, and both start from zero when a reset is due |
| TrackingChart.TrackingChart.Cycle | libEA/chart.cpp:775-804 | a valid cycle applies the chart whether or not its tracker is on; an invalid one freezes the registers |
| ShewhartChart.TripsIff | libEA/chart.cpp:293-299 | the chart trips iff the score is at or above the pass limit or below its negative |
| ShewhartChart.TripsOnMeans | libEA/chart.cpp:289-299 | the chart trips on a value at least so many standard deviations above its mean, or more than so many below, by the deviation held, or at first the value's own |
| ShewhartChart.ChartIsARun | libEA/chart.cpp:360-380 | over every run of values the state is that of the reflected walk of its trips |
| ShewhartChart.SteadyAtMarginIff | libEA/chart.cpp:301-317 | over every run of values the chart is steady iff its count is at the margin, if and only if the margin is not zero |
| ShewhartChart.SteadyAtMarginUnlessZero | libEA/chart.cpp:301-317 | whatever values it is fed, the count stays within zero and the margin |
| ShewhartChart.TurnsUnsteadyAtFirstTrip | libEA/chart.cpp:310-317 | a steady chart turns unsteady at one trip, with its count at zero iff the margin is one at most |
| ShewhartChart.QuietLongEnoughIsSteady | libEA/chart.cpp:301-317 | after any history, as many trip-free cycles as the margin make it steady |
| ShewhartChart.TripsThenQuiet | libEA/chart.cpp:301-317 | after any history so many trips and then so many cycles without take the count down to no less than zero and up to no more than the margin |
| ShewhartChart.ScoresByLastSteadyDeviation | libEA/chart.cpp:289-319 | while unsteady, the score refers to the standard deviation of the last steady cycle |
| ShewhartChart.ShewhartChart.ApplyChart | libEA/chart.cpp:289-319 | score, count, steadiness and reference are those of one application |
| ShewhartChart.ShewhartChart.Cycle | libEA/chart.cpp:360-380 | a reset comes first, and an invalid cycle changes nothing but holds the last valid result |
| Relations.HysteresisBoundsChatter | libEA/factParts.hpp:80-203 | over any run, twice the flips from true to false less one, times the hysteresis, is at most the total variation of how far the relation is missed |
| Relations.SwingsMeetTheBound | libEA/factParts.hpp:80-103 | runs with any number of flips whose variation is as near to that bound as one likes |
| Relations.ResultCompares | libEA/factParts.hpp:80-203 | over any run each relation compares its two values as its sign says, widened by the slack and, while it has held, by the hysteresis |
| Relations.RelationFunctor.Evaluate | libEA/factParts.hpp:80-203 | each of the five relations holds iff it is missed by no more than the slack and, if it held before, the hysteresis |
| SustainedFact.ClaimIffSustained | libEA/fact.cpp:639-686 | watching for true or for false, the claim is made iff enough valid observations have come and the latest of them, as many as wanted, are all the value watched |
| SustainedFact.OnlyWatchedIsClaimed | libEA/fact.cpp:641-668 | from any state without a claim, nothing is claimed iff the value watched for never comes often enough in a row, and until then it stays the one watched for |
| SustainedFact.LastingValueIsClaimedIff | libEA/fact.cpp:641-668 | after any run, a value that sets in for longer than wanted is claimed iff it was the one watched for or the other was being claimed |
| SustainedFact.SustainedFalseCanBeMissed | libEA/fact.cpp:641-668 | a fact true once and false for good is never claimed sustained |
| SustainedFact.LapseIsNotForgiven | libEA/fact.cpp:641-668 | a fact sustained true, false once and true for good is never claimed again |
| SustainedFact.SustainedFact.Cycle | libEA/fact.cpp:639-686 | count, claim and value watched are those of one cycle |

## Left out

- Designs built between dialogues: the interleavings start once all rules have been built, as a tool does.
- Texts: reports, prompts, captions, alerts' messages and the hypotheses' and queries' wording are not modelled, only which prompt is shown; of the maps from ids to hypotheses and items, only which ids are in them.
- Integer width: counts are unbounded; only the conversion of a probability to 16 bits is modelled.
- Rounding: reals have no NaN and do not round; standard deviations are left out in favour of variances.
- Dialogues on cases with no hypothesis on file: they have no solution to verify, and a user who goes on to choose one chooses out of range (`DialogueOutcomes.EveryChoiceNamesAHypoIff`); such cases are created, ranked and destroyed like others, but the dialogue theorems ask for a hypothesis.
- CaseKits.CaseKit.AnswerCasePromptUsingOptionIndex: takes answers to cases with a hypothesis, for the same reason.
- KnowBase.KnowledgeBase.InitializeNodeAt: takes ids that are not zero, as the type of an id promises.
- KnowBase.KnowledgeBase.constructor: takes files with named groups, at most 24 in a group (the buffer of names holds no more), and counts not negative.
- GroupNames.SubgroupListing.constructor: takes names this program makes; on others the two loops need not end.
- The file library itself: a file is a value, its reading and writing always succeed, and `numNodesActive` counts only the nodes created since opening, as in the source.
- `DevolveCounts`: it changes nothing in the source, so learning that a fault is fixed is modelled as writing back what was read.
- Ranking by cost: nothing sets it, and every cost is zero; cases are ranked by age.
- Archives of a case kit, the HTTP interface, panes, traces, kronos, histograms and what snapshots hold; of snapshots only the numbers of the sets are kept, given by each kit from a source of its own.
- Use counts of statistics spans: a span taken into use stays in use.
- Rainfall.MeanTracksValues: is about a log of one size; growing it repeats its oldest value, which `RainAnalogs.RainAnalog.AddNewStatisticsUserSpanningCycles` states.
- Spans longer than the logs, for statistics and for the trap: taken as excluded, as the source does not guard against them.
- Pinned rules and the alerts of hierarchical logic, and the sequencing of triggers: `sequence.cpp` is not part of this model.
- Knobs turned during a run of a chart, a relation or a sustained fact: their theorems are over runs with fixed settings.
